/** Which getters are generated for a member whose type changed between versions
    (UVTD/src/MemberVarsWrapperGenerator.cpp), and which one is right when. */
module GetterGenerator {
  import opened Text
  import opened Numerals
  import opened VersionKeys
  import opened TypeContainer
  import opened TypeHistory
  import opened TypeNormalizer

  datatype Getter = Getter(suffix: string, typeName: string, major: nat, minor: nat)

  /** One getter for every version, one getter after unification, or one per type. */
  datatype Plan =
    | Standard(typeName: string)
    | Unified(typeName: string)
    | PerVersion(getters: seq<Getter>)

  // ----- what the two passes compute -----

  /** Two types with one normal form share a getter. */
  function Form(typeName: string): string { Normalized(Unify(typeName)) }

  /** A recorded type as the generator handles it: unified, with its normal form. */
  datatype Variant = Variant(typeName: string, form: string, major: nat, minor: nat)

  function VariantOf(r: Record): Variant {
    Variant(Unify(r.versioned.typeName), Form(r.versioned.typeName), r.versioned.major, r.versioned.minor)
  }

  predicate IsRawPointer(typeName: string) {
    !StartsWith(typeName, OBJECT_PTR_OPEN) && EndsWith(typeName, "*") && !HasContainerPrefix(typeName)
  }

  /** `should_skip_type_variant`: raw pointers give way to a `TObjectPtr` version. */
  predicate Skipped(typeName: string, all: History) {
    && IsRawPointer(typeName)
    && exists r <- all :: StartsWith(r.versioned.typeName, OBJECT_PTR_OPEN)
  }

  predicate IsKept(r: Record, all: History) { !Skipped(Unify(r.versioned.typeName), all) }

  function Keeper(all: History): Record -> bool { r => IsKept(r, all) }

  function Filtered(keep: Record -> bool, h: History): History {
    if h == [] then []
    else Filtered(keep, h[..|h| - 1]) + if keep(h[|h| - 1]) then [h[|h| - 1]] else []
  }

  function Variants(h: History): (vs: seq<Variant>)
    ensures |vs| == |h|
  {
    seq(|h|, i requires 0 <= i < |h| => VariantOf(h[i]))
  }

  /** The variants that are not skipped, in version order. */
  function Kept(h: History, all: History): seq<Variant> { Variants(Filtered(Keeper(all), h)) }

  predicate Seen(form: string, vs: seq<Variant>) {
    exists v <- vs :: v.form == form
  }

  /** The variants whose normal form did not occur before. */
  function FirstForms(vs: seq<Variant>): seq<Variant> {
    if vs == [] then []
    else
      var before, last := vs[..|vs| - 1], vs[|vs| - 1];
      FirstForms(before) + if Seen(last.form, before) then [] else [last]
  }

  function Suffix(major: nat, minor: nat): string { Digits(major, Dec) + Padded2(minor) }

  /** `Base` for the first, the version for the others. */
  function GetterFor(v: Variant, first: bool): Getter {
    Getter(if first then "Base" else Suffix(v.major, v.minor), v.typeName, v.major, v.minor)
  }

  function GettersFor(firsts: seq<Variant>): seq<Getter> {
    seq(|firsts|, i requires 0 <= i < |firsts| => GetterFor(firsts[i], i == 0))
  }

  function Newest(vs: seq<Variant>): string {
    if vs == [] then "" else vs[|vs| - 1].typeName
  }

  predicate HasVersionedGetters(m: MemberVariable, inherited: bool) {
    m.history != [] && !inherited && !m.bits.isBitfield
  }

  function PlanFor(m: MemberVariable, inherited: bool): Plan {
    var kept := Kept(m.history, m.history);
    if !HasVersionedGetters(m, inherited) then Standard(Unify(m.typeName))
    else if |FirstForms(kept)| == 1 then Unified(Newest(kept))
    else PerVersion(GettersFor(FirstForms(kept)))
  }

  // ----- the generator's loops -----

  method ShouldSkip(typeName: string, all: History) returns (skip: bool)
    ensures skip <==> Skipped(typeName, all)
  {
    if !StartsWith(typeName, OBJECT_PTR_OPEN) && EndsWith(typeName, "*") && !HasContainerPrefix(typeName) {
      for n := 0 to |all|
        invariant forall i :: 0 <= i < n ==> !StartsWith(all[i].versioned.typeName, OBJECT_PTR_OPEN)
      {
        if StartsWith(all[n].versioned.typeName, OBJECT_PTR_OPEN) {
          return true;
        }
      }
    }
    skip := false;
  }

  /** The head of both loops: unify the type, test it, normalise it. */
  method Examine(r: Record, all: History) returns (keep: bool, v: Variant)
    ensures keep <==> IsKept(r, all)
    ensures keep ==> v == VariantOf(r)
  {
    var typeName := Unify(r.versioned.typeName);
    var skip := ShouldSkip(typeName, all);
    keep := !skip;
    var normalized := NormalizeTypeForComparison(typeName);
    v := Variant(typeName, normalized, r.versioned.major, r.versioned.minor);
  }

  ghost function Forms(vs: seq<Variant>): set<string> {
    set v <- vs :: v.form
  }

  lemma OneMore(vs: seq<Variant>, v: Variant)
    ensures Forms(vs + [v]) == Forms(vs) + {v.form}
    ensures Seen(v.form, vs) <==> v.form in Forms(vs)
    ensures FirstForms(vs + [v]) == FirstForms(vs) + if Seen(v.form, vs) then [] else [v]
    ensures Newest(vs + [v]) == v.typeName
  {
    assert (vs + [v])[..|vs|] == vs;
  }

  lemma VariantsOneMore(h: History, r: Record)
    ensures Variants(h + [r]) == Variants(h) + [VariantOf(r)]
  {
    forall i | 0 <= i < |h| ensures Variants(h + [r])[i] == Variants(h)[i] {
      assert (h + [r])[i] == h[i];
    }
  }

  lemma FilteredOneMore(keep: Record -> bool, h: History, n: nat)
    requires n < |h|
    ensures Filtered(keep, h[..n + 1]) == Filtered(keep, h[..n]) + if keep(h[n]) then [h[n]] else []
  {
    assert h[..n + 1][..n] == h[..n];
  }

  lemma KeptOneMore(h: History, n: nat, all: History)
    requires n < |h|
    ensures IsKept(h[n], all) ==> Kept(h[..n + 1], all) == Kept(h[..n], all) + [VariantOf(h[n])]
    ensures !IsKept(h[n], all) ==> Kept(h[..n + 1], all) == Kept(h[..n], all)
  {
    FilteredOneMore(Keeper(all), h, n);
    if IsKept(h[n], all) {
      VariantsOneMore(Filtered(Keeper(all), h[..n]), h[n]);
    } else {
      assert Filtered(Keeper(all), h[..n + 1]) == Filtered(Keeper(all), h[..n]);
    }
  }

  /** First pass: how many distinct getters there will be, and the newest type. */
  method CountGetters(h: History) returns (count: nat, best: string)
    ensures count == |FirstForms(Kept(h, h))|
    ensures best == Newest(Kept(h, h))
  {
    count, best := 0, "";
    var seen: set<string> := {};
    ghost var kept: seq<Variant> := [];
    for n := 0 to |h|
      invariant kept == Kept(h[..n], h)
      invariant count == |FirstForms(kept)| && best == Newest(kept) && seen == Forms(kept)
    {
      var keep, v := Examine(h[n], h);
      KeptOneMore(h, n, h);
      if keep {
        OneMore(kept, v);
        if v.form !in seen {
          seen := seen + {v.form};
          count := count + 1;
        }
        best := v.typeName;
        kept := kept + [v];
      }
    }
    assert h[..|h|] == h;
  }

  lemma OneMoreGetter(firsts: seq<Variant>, v: Variant)
    ensures GettersFor(firsts) == [] <==> firsts == []
    ensures GettersFor(firsts + [v]) == GettersFor(firsts) + [GetterFor(v, firsts == [])]
  {
    forall i | 0 <= i < |firsts| ensures GettersFor(firsts + [v])[i] == GettersFor(firsts)[i] {
      assert (firsts + [v])[i] == firsts[i];
    }
  }

  lemma NextGetter(vs: seq<Variant>, v: Variant)
    ensures GettersFor(FirstForms(vs)) == [] <==> FirstForms(vs) == []
    ensures v.form in Forms(vs) ==> GettersFor(FirstForms(vs + [v])) == GettersFor(FirstForms(vs))
    ensures v.form !in Forms(vs) ==>
      GettersFor(FirstForms(vs + [v])) == GettersFor(FirstForms(vs)) + [GetterFor(v, FirstForms(vs) == [])]
    ensures Forms(vs + [v]) == Forms(vs) + {v.form}
  {
    OneMore(vs, v);
    OneMoreGetter(FirstForms(vs), v);
    if v.form in Forms(vs) {
      assert FirstForms(vs + [v]) == FirstForms(vs);
    }
  }

  method MakeGetter(v: Variant, isFirst: bool) returns (getter: Getter)
    ensures getter == GetterFor(v, isFirst)
  {
    var suffix := "Base";
    if !isFirst {
      suffix := Suffix(v.major, v.minor);
    }
    getter := Getter(suffix, v.typeName, v.major, v.minor);
  }

  /** What the second pass has done once it has seen the kept variants `kept`. */
  ghost predicate Emitted(getters: seq<Getter>, generated: set<string>, isFirst: bool, kept: seq<Variant>) {
    getters == GettersFor(FirstForms(kept)) && generated == Forms(kept) && (isFirst <==> getters == [])
  }

  method EmitNext(getters: seq<Getter>, generated: set<string>, isFirst: bool, v: Variant, ghost kept: seq<Variant>)
    returns (getters': seq<Getter>, generated': set<string>, isFirst': bool)
    requires Emitted(getters, generated, isFirst, kept)
    ensures Emitted(getters', generated', isFirst', kept + [v])
  {
    getters', generated', isFirst' := getters, generated, isFirst;
    NextGetter(kept, v);
    if v.form !in generated' {
      generated' := generated' + {v.form};
      var getter := MakeGetter(v, isFirst');
      isFirst' := false;
      getters' := getters' + [getter];
    }
  }

  /** Second pass: one getter per normal form, in version order. */
  method EmitGetters(h: History) returns (getters: seq<Getter>)
    ensures getters == GettersFor(FirstForms(Kept(h, h)))
  {
    getters := [];
    var generated: set<string> := {};
    var isFirst := true;
    ghost var kept: seq<Variant> := [];
    assert GettersFor(FirstForms([])) == [];
    for n := 0 to |h|
      invariant kept == Kept(h[..n], h)
      invariant Emitted(getters, generated, isFirst, kept)
    {
      var keep, v := Examine(h[n], h);
      KeptOneMore(h, n, h);
      if keep {
        getters, generated, isFirst := EmitNext(getters, generated, isFirst, v, kept);
        kept := kept + [v];
      }
    }
    assert h[..|h|] == h;
  }

  method PlanGetters(m: MemberVariable, inherited: bool) returns (plan: Plan)
    ensures plan == PlanFor(m, inherited)
  {
    if !HasVersionedGetters(m, inherited) {
      return Standard(Unify(m.typeName));
    }
    var count, best := CountGetters(m.history);
    if count == 1 {
      plan := Unified(best);
    } else {
      var getters := EmitGetters(m.history);
      plan := PerVersion(getters);
    }
  }
}
