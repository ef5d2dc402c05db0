/** The types the normaliser's strings stand for, and what normalising does to them.

    A tree carries, before each closing `>` and each `*`, the number of blanks
    its printed form has there. `Print` is the string; `Tidied` is exactly what
    one normalisation pass makes of it; `Tight` is what the tool wants. */
module TypeTree {
  import opened Text
  import opened TypeNormalizer

  datatype Type =
    | Named(name: string)
    | App(name: string, args: TypeList, gap: nat)
    | Ptr(target: Type, gap: nat)
  datatype TypeList = NoArgs | Args(first: Type, rest: TypeList)

  function Blanks(n: nat): string {
    if n == 0 then "" else " " + Blanks(n - 1)
  }

  /** The printed form of `t` followed by `k`. */
  function Print(t: Type, k: string): string {
    match t
    case Named(name) => name + k
    case App(name, args, gap) => name + ("<" + PrintArgs(args, Blanks(gap) + (">" + k)))
    case Ptr(target, gap) => Print(target, Blanks(gap) + ("*" + k))
  }

  function PrintArgs(ts: TypeList, k: string): string {
    match ts
    case NoArgs => k
    case Args(t, NoArgs) => Print(t, k)
    case Args(t, rest) => Print(t, "," + PrintArgs(rest, k))
  }

  // ----- well-formed trees -----

  /** Any text but brackets and stars, not ending in a blank: `AActor`, `const UObject`, `32`. */
  predicate IsName(name: string) {
    && '<' !in name && '>' !in name && '*' !in name
    && !EndsWith(name, " ")
  }

  predicate ProperlyEndsWith(name: string, suffix: string) {
    name != suffix && EndsWith(name, suffix)
  }

  predicate WellFormed(t: Type) {
    match t
    case Named(name) => IsName(name)
    case App(name, args, _) =>
      && IsName(name)
      && !ProperlyEndsWith(name, SIZED_ALLOCATOR)
      && !ProperlyEndsWith(name, OBJECT_PTR)
      && (name == OBJECT_PTR ==> args.Args? && args.rest.NoArgs?)
      && WellFormedArgs(args)
    case Ptr(target, _) => WellFormed(target)
  }

  predicate WellFormedArgs(ts: TypeList) {
    ts.Args? ==> WellFormed(ts.first) && WellFormedArgs(ts.rest)
  }

  predicate IsContainer(t: Type) {
    match t
    case Named(_) => false
    case App(name, _, _) => name == "TArray" || name == "TSet" || name == "TMap"
    case Ptr(target, _) => IsContainer(target)
  }

  predicate IsSizedAllocator32(name: string, args: TypeList) {
    name == SIZED_ALLOCATOR && args == Args(Named("32"), NoArgs)
  }

  // ----- what the passes do to a tree -----

  function Dec(n: nat): nat { if n == 0 then 0 else n - 1 }

  /** One normalisation: one blank goes before each `>`, one before each `*`,
      and inside a container `TObjectPtr<X>` turns into `X*`. */
  function Tidied(t: Type, inContainer: bool): Type {
    match t
    case Named(_) => t
    case App(name, args, gap) =>
      if IsSizedAllocator32(name, args) && gap == 0 then Named(DEFAULT_ALLOCATOR)
      else if inContainer && name == OBJECT_PTR && args.Args? then Ptr(Tidied(args.first, inContainer), Dec(Dec(gap)))
      else App(name, TidiedArgs(args, inContainer), Dec(gap))
    case Ptr(target, gap) => Ptr(Tidied(target, inContainer), Dec(gap))
  }

  function TidiedArgs(ts: TypeList, inContainer: bool): TypeList {
    match ts
    case NoArgs => NoArgs
    case Args(t, rest) => Args(Tidied(t, inContainer), TidiedArgs(rest, inContainer))
  }

  /** The normal form the tool documents: no blanks, `FDefaultAllocator` for
      `TSizedDefaultAllocator<32>`, raw pointers for `TObjectPtr` in containers. */
  function Tight(t: Type, inContainer: bool): Type {
    match t
    case Named(_) => t
    case App(name, args, _) =>
      if IsSizedAllocator32(name, args) then Named(DEFAULT_ALLOCATOR)
      else if inContainer && name == OBJECT_PTR && args.Args? then Ptr(Tight(args.first, inContainer), 0)
      else App(name, TightArgs(args, inContainer), 0)
    case Ptr(target, _) => Ptr(Tight(target, inContainer), 0)
  }

  function TightArgs(ts: TypeList, inContainer: bool): TypeList {
    match ts
    case NoArgs => NoArgs
    case Args(t, rest) => Args(Tight(t, inContainer), TightArgs(rest, inContainer))
  }

  /** The blanks one pass can cope with: at most one before `>` or `*`, two
      before the `>` of an unwrapped `TObjectPtr`, none in `TSizedDefaultAllocator<32>`. */
  predicate Clean(t: Type, inContainer: bool) {
    match t
    case Named(_) => true
    case App(name, args, gap) =>
      if IsSizedAllocator32(name, args) then gap == 0
      else if inContainer && name == OBJECT_PTR && args.Args? then gap <= 2 && Clean(args.first, inContainer)
      else gap <= 1 && CleanArgs(args, inContainer)
    case Ptr(target, gap) => gap <= 1 && Clean(target, inContainer)
  }

  predicate CleanArgs(ts: TypeList, inContainer: bool) {
    ts.Args? ==> Clean(ts.first, inContainer) && CleanArgs(ts.rest, inContainer)
  }

  // ----- the four passes one at a time -----

  function Alloc(t: Type): Type {
    match t
    case Named(_) => t
    case App(name, args, gap) =>
      if IsSizedAllocator32(name, args) && gap == 0 then Named(DEFAULT_ALLOCATOR)
      else App(name, AllocArgs(args), gap)
    case Ptr(target, gap) => Ptr(Alloc(target), gap)
  }

  function AllocArgs(ts: TypeList): TypeList {
    match ts
    case NoArgs => NoArgs
    case Args(t, rest) => Args(Alloc(t), AllocArgs(rest))
  }

  /** One blank fewer before every `c`, which is `>` or `*`. */
  function Squeezed(t: Type, c: char): Type {
    match t
    case Named(_) => t
    case App(name, args, gap) => App(name, SqueezedArgs(args, c), if c == '>' then Dec(gap) else gap)
    case Ptr(target, gap) => Ptr(Squeezed(target, c), if c == '*' then Dec(gap) else gap)
  }

  function SqueezedArgs(ts: TypeList, c: char): TypeList {
    match ts
    case NoArgs => NoArgs
    case Args(t, rest) => Args(Squeezed(t, c), SqueezedArgs(rest, c))
  }

  function Raw(t: Type): Type {
    match t
    case Named(_) => t
    case App(name, args, gap) =>
      if name == OBJECT_PTR && args.Args? then Ptr(Raw(args.first), gap) else App(name, RawArgs(args), gap)
    case Ptr(target, gap) => Ptr(Raw(target), gap)
  }

  function RawArgs(ts: TypeList): TypeList {
    match ts
    case NoArgs => NoArgs
    case Args(t, rest) => Args(Raw(t), RawArgs(rest))
  }

  // ----- each pass on the printed form, followed by any text that ends a type -----

  /** What may follow a printed type inside a larger one. */
  predicate Ends(k: string) {
    k == "" || k[0] == ',' || k[0] == ' ' || k[0] == '*' || k[0] == '>'
  }

  lemma EndsBlanks(n: nat, k: string)
    requires Ends(k)
    ensures Ends(Blanks(n) + k)
  {
    if n == 0 { assert Blanks(n) + k == k; }
  }

  lemma BlanksAreBlank(n: nat)
    ensures |Blanks(n)| == n
    ensures forall c <- Blanks(n) :: c == ' '
  {}

  lemma CopyBlanks(n: nat, k: string, pat: string, rep: string)
    requires pat != "" && pat[0] != ' '
    ensures Rewritten(Blanks(n) + k, pat, rep) == Blanks(n) + Rewritten(k, pat, rep)
  {
    BlanksAreBlank(n);
    var w := Blanks(n);
    forall i | 0 <= i < n ensures !StartsWith(w[i..] + k, pat) {
      assert w[i] in w;
      Mismatch(w[i..] + k, pat, 0);
    }
    RewrittenSkips(w, k, pat, rep);
  }

  /** A character that cannot start the pattern is copied. */
  lemma CopyChar(c: char, k: string, pat: string, rep: string)
    requires pat != "" && pat[0] != c
    ensures Rewritten([c] + k, pat, rep) == [c] + Rewritten(k, pat, rep)
  {
    assert ([c] + k)[1..] == k;
  }

  /** A blank not followed by `c` survives the pass that closes up before `c`. */
  lemma {:induction false} SqueezeBlanks(n: nat, c: char, k: string)
    requires c != ' '
    ensures Rewritten(Blanks(n) + ([c] + k), " " + [c], [c]) == Blanks(Dec(n)) + ([c] + Rewritten(k, " " + [c], [c]))
  {
    var s := Blanks(n) + ([c] + k);
    if n == 0 {
      assert s == [c] + k;
      CopyChar(c, k, " " + [c], [c]);
    } else if n == 1 {
      assert Blanks(1) == " ";
      assert s[..2] == " " + [c] && s[2..] == k;
    } else {
      assert Blanks(n) == " " + (" " + Blanks(n - 2));
      assert s[1] == ' ';
      assert s[1..] == Blanks(n - 1) + ([c] + k);
      SqueezeBlanks(n - 1, c, k);
    }
  }

  lemma {:induction false} KeepBlanks(n: nat, c: char, d: char, k: string)
    requires c != ' ' && d != ' ' && c != d
    ensures Rewritten(Blanks(n) + ([d] + k), " " + [c], [c]) == Blanks(n) + ([d] + Rewritten(k, " " + [c], [c]))
  {
    var s := Blanks(n) + ([d] + k);
    if n == 0 {
      assert s == [d] + k;
      CopyChar(d, k, " " + [c], [c]);
    } else {
      assert s[1..] == Blanks(n - 1) + ([d] + k);
      if n > 1 { assert Blanks(n) == " " + (" " + Blanks(n - 2)); }
      assert !StartsWith(s, " " + [c]) by { assert s[1] != c; }
      KeepBlanks(n - 1, c, d, k);
    }
  }

  lemma Mismatch(s: string, pat: string, at: nat)
    requires at < |pat| && (at < |s| ==> s[at] != pat[at])
    ensures !StartsWith(s, pat)
  {
    assert |pat| <= |s| ==> s[..|pat|][at] == s[at];
  }

  // Pass 1: TSizedDefaultAllocator<32>

  lemma {:induction false} ThirtyTwo(t: Type, k: string)
    requires WellFormed(t) && Ends(k)
    requires t == Named("32") ==> k == "" || k[0] != '>'
    ensures !StartsWith(Print(t, k), "32>")
  {
    match t
    case Named(name) =>
      Mismatch(name + k, "32>",
        if |name| > 2 then 2
        else if |name| == 0 || name[0] != '3' then 0
        else if |name| == 1 || name[1] != '2' then 1
        else 2);
    case App(name, args, gap) =>
      Mismatch(Print(t, k), "32>", if |name| > 2 then 2 else |name|);
    case Ptr(target, gap) =>
      EndsBlanks(gap, "*" + k);
      ThirtyTwo(target, Blanks(gap) + ("*" + k));
  }

  lemma ThirtyTwoArgs(args: TypeList, k: string)
    requires WellFormedArgs(args) && Ends(k)
    requires args == Args(Named("32"), NoArgs) ==> k == "" || k[0] != '>'
    ensures !StartsWith(PrintArgs(args, k), "32>")
  {
    match args
    case NoArgs => Mismatch(k, "32>", 0);
    case Args(t, NoArgs) => ThirtyTwo(t, k);
    case Args(t, rest) => ThirtyTwo(t, "," + PrintArgs(rest, k));
  }

  /** No pattern whose `<` comes at `bracket` starts inside a name, unless the
      name ends in what precedes the `<` and is followed by `<`. */
  lemma NameMismatch(name: string, k: string, i: nat, pat: string, bracket: nat)
    requires IsName(name) && i < |name| && bracket < |pat| && pat[bracket] == '<'
    requires |name| - i <= bracket ==>
      || k == "" || k[0] != pat[|name| - i]
      || (|name| - i == bracket && name[i..] != pat[..bracket])
    ensures !StartsWith(name[i..] + k, pat)
  {
    var s := name[i..] + k;
    if |name| - i > bracket {
      Mismatch(s, pat, bracket);
    } else if k == "" || k[0] != pat[|name| - i] {
      Mismatch(s, pat, |name| - i);
    } else {
      assert |pat| <= |s| ==> s[..|pat|][..bracket] == name[i..];
    }
  }

  lemma NamedHasNoPattern(name: string, k: string, i: nat)
    requires IsName(name) && Ends(k) && i < |name|
    ensures !StartsWith(name[i..] + k, SIZED_ALLOCATOR_32)
    ensures !StartsWith(name[i..] + k, OBJECT_PTR_OPEN)
  {
    NameMismatch(name, k, i, OBJECT_PTR_OPEN, 10);
    NameMismatch(name, k, i, SIZED_ALLOCATOR_32, 22);
  }

  /** In front of an argument list only the whole allocator is the pattern. */
  lemma AppHasNoAllocator(name: string, args: TypeList, gap: nat, k: string, i: nat)
    requires WellFormed(App(name, args, gap)) && Ends(k) && i < |name|
    requires !(IsSizedAllocator32(name, args) && gap == 0)
    ensures !StartsWith(name[i..] + ("<" + PrintArgs(args, Blanks(gap) + (">" + k))), SIZED_ALLOCATOR_32)
  {
    var inner := PrintArgs(args, Blanks(gap) + (">" + k));
    if |name| - i == 22 && name[i..] == SIZED_ALLOCATOR {
      assert EndsWith(name, SIZED_ALLOCATOR);
      EndsBlanks(gap, ">" + k);
      ThirtyTwoArgs(args, Blanks(gap) + (">" + k));
      SameStart(name[i..] + "<", inner, "32>");
      assert name[i..] + "<" + "32>" == SIZED_ALLOCATOR_32;
      assert name[i..] + "<" + inner == name[i..] + ("<" + inner);
    } else {
      assert SIZED_ALLOCATOR_32[..22] == SIZED_ALLOCATOR;
      NameMismatch(name, "<" + inner, i, SIZED_ALLOCATOR_32, 22);
    }
  }

  lemma SameStart(start: string, k: string, pat: string)
    requires !StartsWith(k, pat)
    ensures !StartsWith(start + k, start + pat)
  {
    var s, p := start + k, start + pat;
    assert |p| <= |s| ==> s[..|p|][|start|..] == k[..|pat|];
    assert p[|start|..] == pat;
  }

  lemma AllocatorPrints(k: string)
    ensures Print(App(SIZED_ALLOCATOR, Args(Named("32"), NoArgs), 0), k) == SIZED_ALLOCATOR_32 + k
  {
    var args := Args(Named("32"), NoArgs);
    assert PrintArgs(args, Blanks(0) + (">" + k)) == "32" + (">" + k);
    assert SIZED_ALLOCATOR + ("<" + ("32" + (">" + k))) == SIZED_ALLOCATOR_32 + k;
  }

  lemma {:induction false} AllocPass(t: Type, k: string)
    requires WellFormed(t) && Ends(k)
    ensures Rewritten(Print(t, k), SIZED_ALLOCATOR_32, DEFAULT_ALLOCATOR)
         == Print(Alloc(t), Rewritten(k, SIZED_ALLOCATOR_32, DEFAULT_ALLOCATOR))
    decreases t
  {
    var pat, rep := SIZED_ALLOCATOR_32, DEFAULT_ALLOCATOR;
    match t
    case Named(name) =>
      forall i | 0 <= i < |name| ensures !StartsWith(name[i..] + k, pat) {
        NamedHasNoPattern(name, k, i);
      }
      RewrittenSkips(name, k, pat, rep);
    case App(name, args, gap) =>
      if IsSizedAllocator32(name, args) && gap == 0 {
        AllocatorPrints(k);
        assert (pat + k)[|pat|..] == k;
      } else {
        var inner := PrintArgs(args, Blanks(gap) + (">" + k));
        forall i | 0 <= i < |name| ensures !StartsWith(name[i..] + ("<" + inner), pat) {
          AppHasNoAllocator(name, args, gap, k, i);
        }
        RewrittenSkips(name, "<" + inner, pat, rep);
        CopyChar('<', inner, pat, rep);
        EndsBlanks(gap, ">" + k);
        AllocPassArgs(args, Blanks(gap) + (">" + k));
        CopyBlanks(gap, ">" + k, pat, rep);
        CopyChar('>', k, pat, rep);
      }
    case Ptr(target, gap) =>
      EndsBlanks(gap, "*" + k);
      AllocPass(target, Blanks(gap) + ("*" + k));
      CopyBlanks(gap, "*" + k, pat, rep);
      CopyChar('*', k, pat, rep);
  }

  lemma {:induction false} AllocPassArgs(ts: TypeList, k: string)
    requires WellFormedArgs(ts) && Ends(k)
    ensures Rewritten(PrintArgs(ts, k), SIZED_ALLOCATOR_32, DEFAULT_ALLOCATOR)
         == PrintArgs(AllocArgs(ts), Rewritten(k, SIZED_ALLOCATOR_32, DEFAULT_ALLOCATOR))
    decreases ts
  {
    match ts
    case NoArgs =>
    case Args(t, NoArgs) =>
      AllocPass(t, k);
    case Args(t, rest) =>
      var more := PrintArgs(rest, k);
      AllocPass(t, "," + more);
      CopyChar(',', more, SIZED_ALLOCATOR_32, DEFAULT_ALLOCATOR);
      AllocPassArgs(rest, k);
  }

  // Passes 2 and 4: blanks before `>` and before `*`

  lemma NameHasNoGap(name: string, c: char, k: string)
    requires IsName(name) && (c == '>' || c == '*')
    ensures Rewritten(name + k, " " + [c], [c]) == name + Rewritten(k, " " + [c], [c])
  {
    forall i | 0 <= i < |name| ensures !StartsWith(name[i..] + k, " " + [c]) {
      if i + 1 < |name| {
        Mismatch(name[i..] + k, " " + [c], 1);
      } else {
        assert name[|name| - 1..] == [name[i]];
        Mismatch(name[i..] + k, " " + [c], 0);
      }
    }
    RewrittenSkips(name, k, " " + [c], [c]);
  }

  lemma {:induction false} SqueezePass(t: Type, c: char, k: string)
    requires WellFormed(t) && Ends(k) && (c == '>' || c == '*')
    ensures Rewritten(Print(t, k), " " + [c], [c]) == Print(Squeezed(t, c), Rewritten(k, " " + [c], [c]))
    decreases t
  {
    match t
    case Named(name) =>
      NameHasNoGap(name, c, k);
    case App(name, args, gap) =>
      var tail := Blanks(gap) + (">" + k);
      NameHasNoGap(name, c, "<" + PrintArgs(args, tail));
      CopyChar('<', PrintArgs(args, tail), " " + [c], [c]);
      EndsBlanks(gap, ">" + k);
      SqueezePassArgs(args, c, tail);
      if c == '>' { SqueezeBlanks(gap, c, k); } else { KeepBlanks(gap, c, '>', k); }
    case Ptr(target, gap) =>
      EndsBlanks(gap, "*" + k);
      SqueezePass(target, c, Blanks(gap) + ("*" + k));
      if c == '*' { SqueezeBlanks(gap, c, k); } else { KeepBlanks(gap, c, '*', k); }
  }

  lemma {:induction false} SqueezePassArgs(ts: TypeList, c: char, k: string)
    requires WellFormedArgs(ts) && Ends(k) && (c == '>' || c == '*')
    ensures Rewritten(PrintArgs(ts, k), " " + [c], [c]) == PrintArgs(SqueezedArgs(ts, c), Rewritten(k, " " + [c], [c]))
    decreases ts
  {
    match ts
    case NoArgs =>
    case Args(t, NoArgs) =>
      SqueezePass(t, c, k);
    case Args(t, rest) =>
      var more := PrintArgs(rest, k);
      SqueezePass(t, c, "," + more);
      CopyChar(',', more, " " + [c], [c]);
      SqueezePassArgs(rest, c, k);
  }

  // Pass 3: TObjectPtr<X>

  /** What a printed type adds in length. */
  function Width(t: Type): nat {
    match t
    case Named(name) => |name|
    case App(name, args, gap) => |name| + WidthArgs(args) + gap + 2
    case Ptr(target, gap) => Width(target) + gap + 1
  }

  function WidthArgs(ts: TypeList): nat {
    match ts
    case NoArgs => 0
    case Args(t, NoArgs) => Width(t)
    case Args(t, rest) => Width(t) + 1 + WidthArgs(rest)
  }

  function Shift(r: Option<nat>, n: nat): Option<nat> {
    match r { case Some(i) => Some(i + n) case None => None }
  }

  lemma {:induction false} ClosingSkips(w: string, k: string, depth: nat)
    requires depth > 0 && '<' !in w && '>' !in w
    ensures Closing(w + k, depth) == Shift(Closing(k, depth), |w|)
  {
    if w == "" {
      assert w + k == k;
    } else {
      assert (w + k)[1..] == w[1..] + k;
      ClosingSkips(w[1..], k, depth);
    }
  }

  lemma ClosingBlanks(n: nat, k: string, depth: nat)
    requires depth > 0
    ensures Closing(Blanks(n) + k, depth) == Shift(Closing(k, depth), n)
  {
    BlanksAreBlank(n);
    ClosingSkips(Blanks(n), k, depth);
  }

  lemma ClosingOpens(k: string, depth: nat)
    requires depth > 0
    ensures Closing("<" + k, depth) == Shift(Closing(k, depth + 1), 1)
  {
    assert ("<" + k)[1..] == k;
  }

  lemma ClosingCloses(k: string, depth: nat)
    requires depth > 0
    ensures Closing(">" + k, depth) == if depth == 1 then Some(0) else Shift(Closing(k, depth - 1), 1)
  {
    assert (">" + k)[1..] == k;
  }

  lemma ClosingBrackets(name: string, args: TypeList, gap: nat, k: string, depth: nat)
    requires IsName(name) && depth > 0
    requires Closing(PrintArgs(args, Blanks(gap) + (">" + k)), depth + 1)
          == Shift(Closing(Blanks(gap) + (">" + k), depth + 1), WidthArgs(args))
    ensures Closing(Print(App(name, args, gap), k), depth) == Shift(Closing(k, depth), Width(App(name, args, gap)))
  {
    var tail := ">" + k;
    var inner := PrintArgs(args, Blanks(gap) + tail);
    assert Closing(inner, depth + 1) == Shift(Closing(k, depth), 1 + gap + WidthArgs(args)) by {
      ClosingBlanks(gap, tail, depth + 1);
      ClosingCloses(k, depth + 1);
    }
    ClosingOpens(inner, depth);
    ClosingSkips(name, "<" + inner, depth);
  }

  /** Printed types are bracket-balanced. */
  lemma {:induction false} ClosingPass(t: Type, k: string, depth: nat)
    requires WellFormed(t) && depth > 0
    ensures Closing(Print(t, k), depth) == Shift(Closing(k, depth), Width(t))
    decreases t
  {
    match t
    case Named(name) =>
      ClosingSkips(name, k, depth);
    case App(name, args, gap) =>
      ClosingPassArgs(args, Blanks(gap) + (">" + k), depth + 1);
      ClosingBrackets(name, args, gap, k, depth);
    case Ptr(target, gap) =>
      ClosingPass(target, Blanks(gap) + ("*" + k), depth);
      ClosingBlanks(gap, "*" + k, depth);
      ClosingSkips("*", k, depth);
  }

  lemma {:induction false} ClosingPassArgs(ts: TypeList, k: string, depth: nat)
    requires WellFormedArgs(ts) && depth > 0
    ensures Closing(PrintArgs(ts, k), depth) == Shift(Closing(k, depth), WidthArgs(ts))
    decreases ts
  {
    match ts
    case NoArgs =>
    case Args(t, NoArgs) =>
      ClosingPass(t, k, depth);
    case Args(t, rest) =>
      ClosingPass(t, "," + PrintArgs(rest, k), depth);
      ClosingSkips(",", PrintArgs(rest, k), depth);
      ClosingPassArgs(rest, k, depth);
  }

  /** A printed type is a text of its own, `Width` long, in front of what follows. */
  lemma {:induction false} PrintSplits(t: Type, k: string)
    ensures |Print(t, "")| == Width(t)
    ensures Print(t, k) == Print(t, "") + k
    decreases t
  {
    match t
    case Named(name) =>
    case App(name, args, gap) =>
      BlanksAreBlank(gap);
      PrintArgsSplits(args, Blanks(gap) + (">" + k));
      PrintArgsSplits(args, Blanks(gap) + (">" + ""));
      assert Blanks(gap) + (">" + k) == Blanks(gap) + (">" + "") + k;
    case Ptr(target, gap) =>
      BlanksAreBlank(gap);
      PrintSplits(target, Blanks(gap) + ("*" + k));
      PrintSplits(target, Blanks(gap) + ("*" + ""));
      assert Blanks(gap) + ("*" + k) == Blanks(gap) + ("*" + "") + k;
  }

  lemma {:induction false} PrintArgsSplits(ts: TypeList, k: string)
    ensures |PrintArgs(ts, "")| == WidthArgs(ts)
    ensures PrintArgs(ts, k) == PrintArgs(ts, "") + k
    decreases ts
  {
    match ts
    case NoArgs =>
    case Args(t, NoArgs) =>
      PrintSplits(t, k);
    case Args(t, rest) =>
      PrintSplits(t, "," + PrintArgs(rest, k));
      PrintSplits(t, "," + PrintArgs(rest, ""));
      PrintArgsSplits(rest, k);
  }

  lemma UnwrappedCopies(w: string, k: string)
    requires 'T' !in w
    ensures Unwrapped(w + k) == w + Unwrapped(k)
  {
    forall i | 0 <= i < |w| ensures !StartsWith(w[i..] + k, OBJECT_PTR_OPEN) {
      Mismatch(w[i..] + k, OBJECT_PTR_OPEN, 0);
    }
    UnwrappedSkips(w, k);
  }

  lemma UnwrappedBlanks(n: nat, c: char, k: string)
    requires c != 'T'
    ensures Unwrapped(Blanks(n) + ([c] + k)) == Blanks(n) + ([c] + Unwrapped(k))
  {
    BlanksAreBlank(n);
    UnwrappedCopies(Blanks(n), [c] + k);
    UnwrappedCopies([c], k);
  }

  lemma BlanksClose(gap: nat, k: string)
    ensures Closing(Blanks(gap) + (">" + k), 1) == Some(gap)
  {
    ClosingBlanks(gap, ">" + k, 1);
    ClosingCloses(k, 1);
    assert Shift(Some(0), gap) == Some(gap);
  }

  lemma StarForBracket(s: string, s': string, p: string, b: string, k: string)
    requires s == p + (b + (">" + k)) && s' == p + (b + ("*" + k))
    ensures |p| + |b| < |s| && s[..|p| + |b|] + "*" + s[|p| + |b| + 1..] == s'
  {
    assert s[..|p| + |b|] == p + b;
    assert s[|p| + |b| + 1..] == k;
  }

  /** Replacing the bracket that closes a printed tree by a star. */
  lemma ClosingToStar(t: Type, gap: nat, k: string)
    ensures var n, inner := Width(t) + gap, Print(t, Blanks(gap) + (">" + k));
            n < |inner| && inner[..n] + "*" + inner[n + 1..] == Print(t, Blanks(gap) + ("*" + k))
  {
    var p, b := Print(t, ""), Blanks(gap);
    BlanksAreBlank(gap);
    PrintSplits(t, b + (">" + k));
    PrintSplits(t, b + ("*" + k));
    StarForBracket(Print(t, b + (">" + k)), Print(t, b + ("*" + k)), p, b, k);
  }

  lemma UnwrapsInner(inner: string, n: nat, raw: string)
    requires Closing(inner, 1) == Some(n) && inner[..n] + "*" + inner[n + 1..] == raw
    ensures UnwrapFirst(OBJECT_PTR + ("<" + inner)) == Some(raw)
  {
    var s := OBJECT_PTR + ("<" + inner);
    assert s[11..] == inner;
    assert s[..11] == OBJECT_PTR_OPEN;
  }

  lemma UnwrapsPrinted(t: Type, gap: nat, close: string, star: string)
    requires WellFormed(t) && Closing(close, 1) == Some(gap)
    requires var n, inner := Width(t) + gap, Print(t, close);
      n < |inner| && inner[..n] + "*" + inner[n + 1..] == Print(t, star)
    ensures UnwrapFirst(OBJECT_PTR + ("<" + Print(t, close))) == Some(Print(t, star))
  {
    ClosingPass(t, close, 1);
    UnwrapsInner(Print(t, close), Width(t) + gap, Print(t, star));
  }

  /** `TObjectPtr<X>` in front of any text is rewritten to `X*` in front of it. */
  lemma ObjectPtrUnwraps(t: Type, gap: nat, k: string)
    requires WellFormed(t)
    ensures UnwrapFirst(OBJECT_PTR + ("<" + Print(t, Blanks(gap) + (">" + k))))
         == Some(Print(t, Blanks(gap) + ("*" + k)))
  {
    BlanksClose(gap, k);
    ClosingToStar(t, gap, k);
    UnwrapsPrinted(t, gap, Blanks(gap) + (">" + k), Blanks(gap) + ("*" + k));
  }

  lemma AppHasNoObjectPtr(name: string, k: string)
    requires IsName(name) && !EndsWith(name, OBJECT_PTR)
    ensures Unwrapped(name + ("<" + k)) == name + ("<" + Unwrapped(k))
  {
    forall i | 0 <= i < |name| ensures !StartsWith(name[i..] + ("<" + k), OBJECT_PTR_OPEN) {
      assert OBJECT_PTR_OPEN[..10] == OBJECT_PTR;
      NameMismatch(name, "<" + k, i, OBJECT_PTR_OPEN, 10);
    }
    UnwrappedSkips(name, "<" + k);
    UnwrappedCopies("<", k);
  }

  lemma {:induction false} RawPass(t: Type, k: string)
    requires WellFormed(t) && Ends(k)
    ensures Unwrapped(Print(t, k)) == Print(Raw(t), Unwrapped(k))
    decreases t
  {
    match t
    case Named(name) =>
      forall i | 0 <= i < |name| ensures !StartsWith(name[i..] + k, OBJECT_PTR_OPEN) {
        NamedHasNoPattern(name, k, i);
      }
      UnwrappedSkips(name, k);
    case App(name, args, gap) =>
      if name == OBJECT_PTR {
        ObjectPtrUnwraps(args.first, gap, k);
        EndsBlanks(gap, "*" + k);
        RawPass(args.first, Blanks(gap) + ("*" + k));
        UnwrappedBlanks(gap, '*', k);
      } else {
        AppHasNoObjectPtr(name, PrintArgs(args, Blanks(gap) + (">" + k)));
        EndsBlanks(gap, ">" + k);
        RawPassArgs(args, Blanks(gap) + (">" + k));
        UnwrappedBlanks(gap, '>', k);
      }
    case Ptr(target, gap) =>
      EndsBlanks(gap, "*" + k);
      RawPass(target, Blanks(gap) + ("*" + k));
      UnwrappedBlanks(gap, '*', k);
  }

  lemma {:induction false} RawPassArgs(ts: TypeList, k: string)
    requires WellFormedArgs(ts) && Ends(k)
    ensures Unwrapped(PrintArgs(ts, k)) == PrintArgs(RawArgs(ts), Unwrapped(k))
    decreases ts
  {
    match ts
    case NoArgs =>
    case Args(t, NoArgs) =>
      RawPass(t, k);
    case Args(t, rest) =>
      RawPass(t, "," + PrintArgs(rest, k));
      UnwrappedCopies(",", PrintArgs(rest, k));
      RawPassArgs(rest, k);
  }

  // ----- the passes preserve well-formedness and compose to `Tidied` -----

  lemma {:induction false} AllocKeepsForm(t: Type)
    requires WellFormed(t)
    ensures WellFormed(Alloc(t)) && IsContainer(Alloc(t)) == IsContainer(t)
  {
    match t
    case Named(_) =>
    case App(name, args, gap) =>
      AllocArgsKeepsForm(args);
      if IsSizedAllocator32(name, args) && gap == 0 {
        assert !EndsWith(DEFAULT_ALLOCATOR, " ");
      } else {
        assert args.Args? ==> AllocArgs(args).rest == AllocArgs(args.rest);
      }
    case Ptr(target, _) => AllocKeepsForm(target);
  }

  lemma {:induction false} AllocArgsKeepsForm(ts: TypeList)
    requires WellFormedArgs(ts)
    ensures WellFormedArgs(AllocArgs(ts))
  {
    if ts.Args? { AllocKeepsForm(ts.first); AllocArgsKeepsForm(ts.rest); }
  }

  lemma {:induction false} SqueezeKeepsForm(t: Type, c: char)
    requires WellFormed(t)
    ensures WellFormed(Squeezed(t, c)) && IsContainer(Squeezed(t, c)) == IsContainer(t)
  {
    match t
    case Named(_) =>
    case App(name, args, _) =>
      SqueezeArgsKeepsForm(args, c);
      assert args.Args? ==> SqueezedArgs(args, c).rest == SqueezedArgs(args.rest, c);
    case Ptr(target, _) => SqueezeKeepsForm(target, c);
  }

  lemma {:induction false} SqueezeArgsKeepsForm(ts: TypeList, c: char)
    requires WellFormedArgs(ts)
    ensures WellFormedArgs(SqueezedArgs(ts, c))
  {
    if ts.Args? { SqueezeKeepsForm(ts.first, c); SqueezeArgsKeepsForm(ts.rest, c); }
  }

  lemma {:induction false} RawKeepsForm(t: Type)
    requires WellFormed(t)
    ensures WellFormed(Raw(t))
  {
    match t
    case Named(_) =>
    case App(name, args, _) => RawArgsKeepsForm(args);
    case Ptr(target, _) => RawKeepsForm(target);
  }

  lemma {:induction false} RawArgsKeepsForm(ts: TypeList)
    requires WellFormedArgs(ts)
    ensures WellFormedArgs(RawArgs(ts))
  {
    if ts.Args? { RawKeepsForm(ts.first); RawArgsKeepsForm(ts.rest); }
  }

  lemma {:induction false} PassesCompose(t: Type, inContainer: bool)
    requires WellFormed(t)
    ensures var closed := Squeezed(Alloc(t), '>');
      Squeezed(if inContainer then Raw(closed) else closed, '*') == Tidied(t, inContainer)
  {
    match t
    case Named(_) =>
    case App(name, args, _) => PassesComposeArgs(args, inContainer);
    case Ptr(target, _) => PassesCompose(target, inContainer);
  }

  lemma {:induction false} PassesComposeArgs(ts: TypeList, inContainer: bool)
    requires WellFormedArgs(ts)
    ensures var closed := SqueezedArgs(AllocArgs(ts), '>');
      SqueezedArgs(if inContainer then RawArgs(closed) else closed, '*') == TidiedArgs(ts, inContainer)
  {
    if ts.Args? { PassesCompose(ts.first, inContainer); PassesComposeArgs(ts.rest, inContainer); }
  }

  function Last(s: string): char
    requires s != ""
  {
    s[|s| - 1]
  }

  lemma {:induction false} PrintKeepsLast(t: Type, k: string)
    requires k != ""
    ensures Print(t, k) != "" && Last(Print(t, k)) == Last(k)
    decreases t
  {
    match t
    case Named(name) =>
    case App(name, args, gap) => PrintArgsKeepsLast(args, Blanks(gap) + (">" + k));
    case Ptr(target, gap) => PrintKeepsLast(target, Blanks(gap) + ("*" + k));
  }

  lemma {:induction false} PrintArgsKeepsLast(ts: TypeList, k: string)
    requires k != ""
    ensures PrintArgs(ts, k) != "" && Last(PrintArgs(ts, k)) == Last(k)
    decreases ts
  {
    match ts
    case NoArgs =>
    case Args(t, NoArgs) => PrintKeepsLast(t, k);
    case Args(t, rest) =>
      PrintArgsKeepsLast(rest, k);
      PrintKeepsLast(t, "," + PrintArgs(rest, k));
  }

  lemma PrintsNoTrailingBlank(t: Type)
    requires WellFormed(t)
    ensures DropTrailingBlanks(Print(t, "")) == Print(t, "")
  {
    match t
    case Named(name) =>
      assert name != "" ==> name[|name| - 1..] == [Last(name)];
    case App(name, args, gap) => PrintArgsKeepsLast(args, Blanks(gap) + (">" + ""));
    case Ptr(target, gap) => PrintKeepsLast(target, Blanks(gap) + ("*" + ""));
  }

  lemma {:induction false} ContainerPrints(t: Type, k: string)
    requires WellFormed(t) && Ends(k)
    ensures HasContainerPrefix(Print(t, k)) == IsContainer(t)
    decreases t
  {
    match t
    case Named(name) =>
      ContainerPrefix(name, k);
    case App(name, args, gap) =>
      ContainerPrefix(name, "<" + PrintArgs(args, Blanks(gap) + (">" + k)));
    case Ptr(target, gap) =>
      EndsBlanks(gap, "*" + k);
      ContainerPrints(target, Blanks(gap) + ("*" + k));
  }

  lemma ContainerPrefix(name: string, k: string)
    requires IsName(name) && (Ends(k) || k[0] == '<')
    ensures HasContainerPrefix(name + k) <==>
      k != "" && k[0] == '<' && (name == "TArray" || name == "TSet" || name == "TMap")
  {
    NamePrefix(name, k, "TArray");
    NamePrefix(name, k, "TSet");
    NamePrefix(name, k, "TMap");
  }

  lemma NamePrefix(name: string, k: string, prefix: string)
    requires IsName(name) && '<' !in prefix
    requires k == "" || k[0] !in prefix
    ensures StartsWith(name + k, prefix + "<") <==> name == prefix && k != "" && k[0] == '<'
  {
    var s, p := name + k, prefix + "<";
    if name == prefix {
      if k == "" || k[0] != '<' { Mismatch(s, p, |name|); }
      assert k != "" ==> s[..|p|] == name + [k[0]];
    } else if |name| != |prefix| {
      Mismatch(s, p, if |name| > |prefix| then |prefix| else |name|);
    } else {
      assert |p| <= |s| ==> s[..|p|][..|name|] == name;
    }
  }

  // ----- the theorems -----

  /** Blanks at the end of a text stay as they are in every pass but the one that
      drops them. */
  lemma TrailingBlanksStay(n: nat, c: char)
    requires c != ' '
    ensures Rewritten(Blanks(n), SIZED_ALLOCATOR_32, DEFAULT_ALLOCATOR) == Blanks(n)
    ensures Rewritten(Blanks(n), " " + [c], [c]) == Blanks(n)
  {
    var w := Blanks(n);
    BlanksAreBlank(n);
    assert w + "" == w;
    CopyBlanks(n, "", SIZED_ALLOCATOR_32, DEFAULT_ALLOCATOR);
    forall i | 0 <= i < n ensures !StartsWith(w[i..] + "", " " + [c]) {
      if i + 1 < n { assert w[i + 1] in w; }
      Mismatch(w[i..] + "", " " + [c], 1);
    }
    RewrittenSkips(w, "", " " + [c], [c]);
  }

  lemma {:induction false} TrailingBlanksDrop(s: string, n: nat)
    ensures DropTrailingBlanks(s + Blanks(n)) == DropTrailingBlanks(s)
  {
    if n == 0 {
      assert s + "" == s;
    } else {
      BlanksAreBlank(n);
      BlanksAreBlank(n - 1);
      assert Blanks(n)[n - 1] in Blanks(n);
      assert (s + Blanks(n))[..|s| + n - 1] == s + Blanks(n - 1) by {
        forall i | 0 <= i < n - 1 ensures Blanks(n)[i] == Blanks(n - 1)[i] {
          assert Blanks(n)[i] in Blanks(n) && Blanks(n - 1)[i] in Blanks(n - 1);
        }
      }
      TrailingBlanksDrop(s, n - 1);
    }
  }

  /** The passes up to the one that drops the blanks at the end. */
  lemma DropsBlanks(t: Type, trailing: nat)
    requires WellFormed(t)
    ensures var s := Rewritten(Print(t, Blanks(trailing)), SIZED_ALLOCATOR_32, DEFAULT_ALLOCATOR);
      DropTrailingBlanks(Rewritten(s, " >", ">")) == Print(Squeezed(Alloc(t), '>'), "")
  {
    var t1, k := Alloc(t), Blanks(trailing);
    EndsBlanks(trailing, "");
    assert k + "" == k;
    TrailingBlanksStay(trailing, '>');
    AllocPass(t, k);
    AllocKeepsForm(t);
    assert " >" == " " + ['>'] && ">" == ['>'];
    SqueezePass(t1, '>', k);
    SqueezeKeepsForm(t1, '>');
    PrintSplits(Squeezed(t1, '>'), k);
    TrailingBlanksDrop(Print(Squeezed(t1, '>'), ""), trailing);
    PrintsNoTrailingBlank(Squeezed(t1, '>'));
  }

  /** One normalisation of a printed type, with any blanks at its end, prints
      exactly the tidied type. */
  lemma NormalizesPrinted(t: Type, trailing: nat)
    requires WellFormed(t)
    ensures Normalized(Print(t, Blanks(trailing))) == Print(Tidied(t, IsContainer(t)), "")
  {
    var t2 := Squeezed(Alloc(t), '>');
    DropsBlanks(t, trailing);
    AllocKeepsForm(t);
    SqueezeKeepsForm(Alloc(t), '>');
    ContainerPrints(t2, "");
    var t3 := if IsContainer(t) then Raw(t2) else t2;
    RawPass(t2, "");
    RawKeepsForm(t2);
    assert " *" == " " + ['*'] && "*" == ['*'];
    SqueezePass(t3, '*', "");
    PassesCompose(t, IsContainer(t));
  }

  lemma {:induction false} TidyWidth(t: Type, inContainer: bool)
    requires WellFormed(t)
    ensures Width(Tight(t, inContainer)) <= Width(Tidied(t, inContainer))
    ensures Width(Tight(t, inContainer)) == Width(Tidied(t, inContainer)) <==> Clean(t, inContainer)
    ensures Clean(t, inContainer) ==> Tidied(t, inContainer) == Tight(t, inContainer)
  {
    match t
    case Named(_) =>
    case App(name, args, gap) =>
      if IsSizedAllocator32(name, args) {
        if gap > 0 { SizedAllocatorWidth(gap, inContainer); }
      } else {
        TidyWidthArgs(args, inContainer);
      }
    case Ptr(target, _) => TidyWidth(target, inContainer);
  }

  lemma SizedAllocatorWidth(gap: nat, inContainer: bool)
    requires gap > 0
    ensures var t := App(SIZED_ALLOCATOR, Args(Named("32"), NoArgs), gap);
      Width(Tight(t, inContainer)) < Width(Tidied(t, inContainer))
  {
    var args := Args(Named("32"), NoArgs);
    assert TidiedArgs(args, inContainer) == args;
    assert WidthArgs(args) == 2;
  }

  lemma {:induction false} TidyWidthArgs(ts: TypeList, inContainer: bool)
    requires WellFormedArgs(ts)
    ensures WidthArgs(TightArgs(ts, inContainer)) <= WidthArgs(TidiedArgs(ts, inContainer))
    ensures WidthArgs(TightArgs(ts, inContainer)) == WidthArgs(TidiedArgs(ts, inContainer))
       <==> CleanArgs(ts, inContainer)
    ensures CleanArgs(ts, inContainer) ==> TidiedArgs(ts, inContainer) == TightArgs(ts, inContainer)
  {
    if ts.Args? {
      TidyWidth(ts.first, inContainer);
      TidyWidthArgs(ts.rest, inContainer);
    }
  }

  /** The documented normal form is reached exactly when every gap is one that
      a single pass closes. */
  lemma NormalFormReachedIff(t: Type, trailing: nat)
    requires WellFormed(t)
    ensures Normalized(Print(t, Blanks(trailing))) == Print(Tight(t, IsContainer(t)), "") <==> Clean(t, IsContainer(t))
  {
    var c := IsContainer(t);
    NormalizesPrinted(t, trailing);
    TidyWidth(t, c);
    PrintSplits(Tight(t, c), "");
    PrintSplits(Tidied(t, c), "");
  }

  lemma {:induction false} TightIsTidy(t: Type, c: bool)
    requires WellFormed(t)
    ensures WellFormed(Tight(t, c)) && Tidied(Tight(t, c), c) == Tight(t, c)
  {
    match t
    case Named(_) =>
    case App(name, args, gap) =>
      if IsSizedAllocator32(name, args) {
        assert !EndsWith(DEFAULT_ALLOCATOR, " ");
      } else if c && name == OBJECT_PTR {
        TightIsTidy(args.first, c);
      } else {
        TightIsTidyArgs(args, c);
        TightAppIsTidy(name, args, c);
      }
    case Ptr(target, _) => TightIsTidy(target, c);
  }

  lemma TightAppIsTidy(name: string, args: TypeList, c: bool)
    requires WellFormed(App(name, args, 0)) && !IsSizedAllocator32(name, args) && !(c && name == OBJECT_PTR)
    requires var us := TightArgs(args, c); WellFormedArgs(us) && TidiedArgs(us, c) == us
    ensures var u := App(name, TightArgs(args, c), 0); WellFormed(u) && Tidied(u, c) == u
  {
    assert args.Args? ==> TightArgs(args, c).rest == TightArgs(args.rest, c);
  }

  lemma {:induction false} TightIsContainer(t: Type)
    ensures IsContainer(Tight(t, IsContainer(t))) == IsContainer(t)
  {
    if t.Ptr? { TightIsContainer(t.target); }
  }

  lemma {:induction false} TightIsTidyArgs(ts: TypeList, c: bool)
    requires WellFormedArgs(ts)
    ensures var us := TightArgs(ts, c); WellFormedArgs(us) && TidiedArgs(us, c) == us
  {
    if ts.Args? {
      TightIsTidy(ts.first, c);
      TightIsTidyArgs(ts.rest, c);
    }
  }

  /** Normal forms are fixed points. */
  lemma NormalFormIsFixed(t: Type)
    requires WellFormed(t)
    ensures var tight := Print(Tight(t, IsContainer(t)), ""); Normalized(tight) == tight
  {
    TightIsTidy(t, IsContainer(t));
    TightIsContainer(t);
    NormalizesPrinted(Tight(t, IsContainer(t)), 0);
  }

  /** `TSet<X  >` is not normalised in one pass, nor is `TSizedDefaultAllocator<32 >`:
      the conditions of `Clean` are needed. */
  lemma TwoBlanksDefeatOnePass(x: string) returns (t: Type)
    requires IsName(x)
    ensures t == App("TSet", Args(Named(x), NoArgs), 2)
    ensures Normalized(Print(t, "")) != Print(Tight(t, IsContainer(t)), "")
  {
    t := App("TSet", Args(Named(x), NoArgs), 2);
    NormalFormReachedIff(t, 0);
  }

  lemma BlankInAllocatorDefeatsOnePass(t: Type)
    requires WellFormed(t) && t == App(SIZED_ALLOCATOR, Args(Named("32"), NoArgs), 1)
    ensures Normalized(Print(t, "")) != Print(Tight(t, IsContainer(t)), "")
  {
    NormalFormReachedIff(t, 0);
  }

  // ----- in the words of the engine -----

  lemma PrintsOne(name: string, x: Type, gap: nat, k: string)
    ensures Print(App(name, Args(x, NoArgs), gap), k) == name + ("<" + Print(x, Blanks(gap) + (">" + k)))
  {}

  lemma PrintsTwo(name: string, x: Type, y: Type, gap: nat, k: string)
    ensures Print(App(name, Args(x, Args(y, NoArgs)), gap), k)
         == name + ("<" + Print(x, "," + Print(y, Blanks(gap) + (">" + k))))
  {
    assert PrintArgs(Args(y, NoArgs), Blanks(gap) + (">" + k)) == Print(y, Blanks(gap) + (">" + k));
  }

  lemma OneBlank()
    ensures Blanks(0) == "" && Blanks(1) == " "
  {
    assert " " + "" == " ";
  }

  lemma PrintsNested(outer: string, inner: string, x: string)
    ensures Print(App(outer, Args(App(inner, Args(Named(x), NoArgs), 0), NoArgs), 1), "")
         == outer + "<" + inner + "<" + x + "> >"
  {
    OneBlank();
    PrintsOne(outer, App(inner, Args(Named(x), NoArgs), 0), 1, "");
    PrintsOne(inner, Named(x), 0, " " + (">" + ""));
    assert "" + (">" + (" " + (">" + ""))) == "> >";
    assert outer + ("<" + (inner + ("<" + (x + "> >")))) == outer + "<" + inner + "<" + x + "> >";
  }

  lemma PrintsPointers(outer: string, x: string)
    ensures Print(App(outer, Args(Ptr(Named(x), 0), NoArgs), 0), "") == outer + "<" + x + "*>"
  {
    OneBlank();
    PrintsOne(outer, Ptr(Named(x), 0), 0, "");
    assert "" + ("*" + ("" + (">" + ""))) == "*>";
    assert outer + ("<" + (x + "*>")) == outer + "<" + x + "*>";
  }

  lemma OneArgument(x: Type, rest: TypeList, c: bool)
    ensures WellFormedArgs(NoArgs) && TidiedArgs(NoArgs, c) == NoArgs
    ensures WellFormedArgs(Args(x, rest)) <==> WellFormed(x) && WellFormedArgs(rest)
    ensures TidiedArgs(Args(x, rest), c) == Args(Tidied(x, c), TidiedArgs(rest, c))
  {}

  lemma PointersTidied(x: string)
    requires IsName(x)
    ensures var t := App("TArray", Args(App("TObjectPtr", Args(Named(x), NoArgs), 0), NoArgs), 1);
      && WellFormed(t) && IsContainer(t)
      && Tidied(t, true) == App("TArray", Args(Ptr(Named(x), 0), NoArgs), 0)
  {
    var pointer := App("TObjectPtr", Args(Named(x), NoArgs), 0);
    NoProperSuffix("TObjectPtr");
    NoProperSuffix("TArray");
    OneArgument(Named(x), NoArgs, true);
    OneArgument(pointer, NoArgs, true);
  }

  /** In an array the object pointer becomes a raw one, in the spacing compilers
      print. */
  lemma ArrayOfPointers(x: string)
    requires IsName(x)
    ensures Normalized("TArray<" + ("TObjectPtr<" + (x + "> >"))) == "TArray<" + (x + "*>")
  {
    var t := App("TArray", Args(App("TObjectPtr", Args(Named(x), NoArgs), 0), NoArgs), 1);
    PointersTidied(x);
    NormalizesPrinted(t, 0);
    PrintsNested("TArray", "TObjectPtr", x);
    PrintsPointers("TArray", x);
    Regroup("TArray", "TObjectPtr", x, "> >");
    assert "TArray" + "<" == "TArray<" && "TObjectPtr" + "<" == "TObjectPtr<";
    assert "TArray" + "<" + x + "*>" == "TArray<" + (x + "*>");
  }

  lemma Regroup(a: string, b: string, x: string, end: string)
    ensures a + "<" + b + "<" + x + end == (a + "<") + ((b + "<") + (x + end))
  {}

  lemma PrintsWithAllocator(outer: string, x: string, allocator: string)
    ensures Print(App(outer, Args(Named(x), Args(App(allocator, Args(Named("32"), NoArgs), 0), NoArgs)), 1), "")
         == outer + "<" + x + "," + allocator + "<32> >"
    ensures Print(App(outer, Args(Named(x), Args(Named(allocator), NoArgs)), 0), "")
         == outer + "<" + x + "," + allocator + ">"
  {
    OneBlank();
    PrintsTwo(outer, Named(x), App(allocator, Args(Named("32"), NoArgs), 0), 1, "");
    PrintsOne(allocator, Named("32"), 0, " " + (">" + ""));
    PrintsTwo(outer, Named(x), Named(allocator), 0, "");
    assert "<" + ("32" + ("" + (">" + (" " + (">" + ""))))) == "<32> >" && "" + (">" + "") == ">";
    assert outer + ("<" + (x + ("," + (allocator + "<32> >")))) == outer + "<" + x + "," + allocator + "<32> >";
    assert outer + ("<" + (x + ("," + (allocator + ">")))) == outer + "<" + x + "," + allocator + ">";
  }

  lemma AllocatorTidied(x: string)
    requires IsName(x)
    ensures var allocator := App("TSizedDefaultAllocator", Args(Named("32"), NoArgs), 0);
      var t := App("TArray", Args(Named(x), Args(allocator, NoArgs)), 1);
      && WellFormed(t) && IsContainer(t)
      && Tidied(t, true) == App("TArray", Args(Named(x), Args(Named("FDefaultAllocator"), NoArgs)), 0)
  {
    var allocator := App("TSizedDefaultAllocator", Args(Named("32"), NoArgs), 0);
    NoProperSuffix("TSizedDefaultAllocator");
    NoProperSuffix("TArray");
    OneArgument(Named("32"), NoArgs, true);
    OneArgument(allocator, NoArgs, true);
    OneArgument(Named(x), Args(allocator, NoArgs), true);
  }

  /** The allocator with the size is the default one. */
  lemma ArrayWithAllocator(x: string)
    requires IsName(x)
    ensures Normalized("TArray" + "<" + x + "," + "TSizedDefaultAllocator" + "<32> >")
         == "TArray" + "<" + x + "," + "FDefaultAllocator" + ">"
  {
    var allocator := App("TSizedDefaultAllocator", Args(Named("32"), NoArgs), 0);
    AllocatorTidied(x);
    NormalizesPrinted(App("TArray", Args(Named(x), Args(allocator, NoArgs)), 1), 0);
    PrintsWithAllocator("TArray", x, "TSizedDefaultAllocator");
    PrintsWithAllocator("TArray", x, "FDefaultAllocator");
  }

  lemma NoProperSuffix(name: string)
    requires name == "TArray" || name == "TObjectPtr" || name == "TSizedDefaultAllocator"
    ensures IsName(name) && !ProperlyEndsWith(name, SIZED_ALLOCATOR) && !ProperlyEndsWith(name, OBJECT_PTR)
  {}
}
