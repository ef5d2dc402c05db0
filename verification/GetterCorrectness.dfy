/** When the generated getters are the right ones: end to end, from the PDBs
    joined to the getter in force at each version. */
module GetterCorrectness {
  import opened Text
  import opened Numerals
  import opened VersionKeys
  import opened TypeContainer
  import opened TypeHistory
  import opened TypeNormalizer
  import opened GetterGenerator

  // ----- variants on their own: which getter is in force where -----

  predicate VersionsAscend(vs: seq<Variant>) {
    forall i, j :: 0 <= i < j < |vs| ==> Earlier(vs[i].major, vs[i].minor, vs[j].major, vs[j].minor)
  }

  /** The variant in force at a version: the last one not after it, or the first. */
  function VariantAt(vs: seq<Variant>, major: nat, minor: nat): (v: Variant)
    requires vs != []
    ensures v in vs
  {
    var last := vs[|vs| - 1];
    if |vs| == 1 || !Earlier(major, minor, last.major, last.minor) then last
    else VariantAt(vs[..|vs| - 1], major, minor)
  }

  /** Each normal form occupies one contiguous run of the variants. */
  predicate Contiguous(vs: seq<Variant>) {
    forall i, j, n :: 0 <= i < j < n < |vs| && vs[i].form == vs[n].form ==> vs[j].form == vs[i].form
  }

  /** The variant that got the getter in force at a variant's version has its normal form. */
  predicate RightAt(vs: seq<Variant>, i: nat)
    requires i < |vs|
  {
    FirstForms(vs) != [] && VariantAt(FirstForms(vs), vs[i].major, vs[i].minor).form == vs[i].form
  }

  lemma {:induction false} FirstFormsFacts(vs: seq<Variant>)
    ensures vs != [] ==> FirstForms(vs) != []
    ensures forall v <- FirstForms(vs) :: v in vs
  {
    if vs != [] {
      FirstFormsFacts(vs[..|vs| - 1]);
    }
  }

  lemma FirstFormsStep(vs: seq<Variant>)
    requires vs != []
    ensures var n := |vs| - 1;
      FirstForms(vs) == FirstForms(vs[..n]) || FirstForms(vs) == FirstForms(vs[..n]) + [vs[n]]
  {
    if Seen(vs[|vs| - 1].form, vs[..|vs| - 1]) {
      assert FirstForms(vs) == FirstForms(vs[..|vs| - 1]);
    }
  }

  /** The last of the first forms up to the variant at `i`. */
  function Newly(vs: seq<Variant>, i: nat): Variant
    requires i < |vs|
  {
    FirstFormsFacts(vs[..i + 1]);
    var firsts := FirstForms(vs[..i + 1]);
    firsts[|firsts| - 1]
  }

  /** It is the variant whose getter is in force there. */
  lemma {:induction false} InForceIsNewest(vs: seq<Variant>, i: nat)
    requires VersionsAscend(vs) && i < |vs|
    ensures FirstForms(vs) != [] && VariantAt(FirstForms(vs), vs[i].major, vs[i].minor) == Newly(vs, i)
  {
    var n := |vs| - 1;
    FirstFormsFacts(vs);
    if i == n {
      assert vs[..n + 1] == vs;
      var firsts := FirstForms(vs);
      assert firsts[|firsts| - 1] in vs;
    } else {
      InForceIsNewest(vs[..n], i);
      assert vs[..n][..i + 1] == vs[..i + 1];
      assert Earlier(vs[i].major, vs[i].minor, vs[n].major, vs[n].minor);
      FirstFormsFacts(vs[..n]);
      FirstFormsStep(vs);
      LaterIsNotInForce(FirstForms(vs[..n]), vs[n], vs[i].major, vs[i].minor);
    }
  }

  lemma LaterIsNotInForce(firsts: seq<Variant>, v: Variant, major: nat, minor: nat)
    requires firsts != [] && Earlier(major, minor, v.major, v.minor)
    ensures VariantAt(firsts + [v], major, minor) == VariantAt(firsts, major, minor)
  {
    assert (firsts + [v])[..|firsts|] == firsts;
  }

  /** The variant is new, or like the one before it. */
  predicate NewOrSame(vs: seq<Variant>, i: nat)
    requires i < |vs|
  {
    Seen(vs[i].form, vs[..i]) ==> i > 0 && vs[i - 1].form == vs[i].form
  }

  lemma NewlyStep(vs: seq<Variant>, i: nat)
    requires i < |vs|
    ensures !Seen(vs[i].form, vs[..i]) ==> Newly(vs, i) == vs[i]
    ensures Seen(vs[i].form, vs[..i]) ==> i > 0 && Newly(vs, i) == Newly(vs, i - 1)
  {
    assert vs[..i + 1][..i] == vs[..i];
  }

  lemma {:induction false} NewlyRight(vs: seq<Variant>, i: nat)
    requires i < |vs| && forall j :: 0 <= j <= i ==> NewOrSame(vs, j)
    ensures Newly(vs, i).form == vs[i].form
  {
    NewlyStep(vs, i);
    assert NewOrSame(vs, i);
    if Seen(vs[i].form, vs[..i]) {
      NewlyRight(vs, i - 1);
    }
  }

  lemma NewlyRightIsNewOrSame(vs: seq<Variant>, i: nat)
    requires i < |vs| && Newly(vs, i).form == vs[i].form
    requires i > 0 ==> Newly(vs, i - 1).form == vs[i - 1].form
    ensures NewOrSame(vs, i)
  {
    NewlyStep(vs, i);
  }

  lemma ContiguousIsNewOrSame(vs: seq<Variant>, i: nat)
    requires Contiguous(vs) && i < |vs|
    ensures NewOrSame(vs, i)
  {
    if Seen(vs[i].form, vs[..i]) {
      var v :| v in vs[..i] && v.form == vs[i].form;
      var j :| 0 <= j < i && vs[j] == v;
      assert j < i - 1 ==> vs[i - 1].form == vs[j].form;
    }
  }

  lemma {:induction false} NewOrSameIsContiguous(vs: seq<Variant>, i: nat, j: nat, n: nat)
    requires forall m :: 0 <= m < |vs| ==> NewOrSame(vs, m)
    requires i < j < n < |vs| && vs[i].form == vs[n].form
    ensures vs[j].form == vs[i].form
  {
    assert NewOrSame(vs, n);
    assert vs[i] in vs[..n];
    if j < n - 1 {
      NewOrSameIsContiguous(vs, i, j, n - 1);
    }
  }

  /** The getters are right everywhere exactly when no normal form comes back. */
  lemma RightIffContiguous(vs: seq<Variant>)
    requires VersionsAscend(vs)
    ensures (forall i :: 0 <= i < |vs| ==> RightAt(vs, i)) <==> Contiguous(vs)
  {
    forall i | 0 <= i < |vs| ensures RightAt(vs, i) <==> Newly(vs, i).form == vs[i].form {
      InForceIsNewest(vs, i);
    }
    if Contiguous(vs) {
      forall i | 0 <= i < |vs| ensures RightAt(vs, i) {
        forall j | 0 <= j <= i ensures NewOrSame(vs, j) { ContiguousIsNewOrSame(vs, j); }
        NewlyRight(vs, i);
      }
    }
    if forall i :: 0 <= i < |vs| ==> RightAt(vs, i) {
      forall i | 0 <= i < |vs| ensures NewOrSame(vs, i) {
        assert RightAt(vs, i);
        assert i > 0 ==> RightAt(vs, i - 1);
        NewlyRightIsNewOrSame(vs, i);
      }
      forall i, j, n | 0 <= i < j < n < |vs| && vs[i].form == vs[n].form ensures vs[j].form == vs[i].form {
        NewOrSameIsContiguous(vs, i, j, n);
      }
    }
  }

  // ----- from variants to the generated getters -----

  /** `GetXBase` below the second getter's version, then the last getter up to the version. */
  function GetterInForce(getters: seq<Getter>, major: nat, minor: nat): Getter
    requires getters != []
  {
    var last := getters[|getters| - 1];
    if |getters| == 1 || !Earlier(major, minor, last.major, last.minor) then last
    else GetterInForce(getters[..|getters| - 1], major, minor)
  }

  /** The type of the getter to use at a version. */
  function TypeInPlan(plan: Plan, major: nat, minor: nat): string {
    match plan
    case Standard(typeName) => typeName
    case Unified(typeName) => typeName
    case PerVersion(getters) => if getters == [] then "" else GetterInForce(getters, major, minor).typeName
  }

  lemma {:induction false} GetterOfVariant(firsts: seq<Variant>, major: nat, minor: nat)
    requires firsts != []
    ensures GettersFor(firsts) != []
    ensures GetterInForce(GettersFor(firsts), major, minor).typeName == VariantAt(firsts, major, minor).typeName
  {
    var n := |firsts| - 1;
    if n > 0 {
      GetterOfVariant(firsts[..n], major, minor);
      assert GettersFor(firsts)[..n] == GettersFor(firsts[..n]);
    }
  }

  lemma {:induction false} VariantAtSame(vs: seq<Variant>, major: nat, minor: nat, major': nat, minor': nat)
    requires vs != []
    requires forall v <- vs :: Earlier(major, minor, v.major, v.minor) <==> Earlier(major', minor', v.major, v.minor)
    ensures VariantAt(vs, major, minor) == VariantAt(vs, major', minor')
  {
    var n := |vs| - 1;
    assert vs[n] in vs;
    if n > 0 { VariantAtSame(vs[..n], major, minor, major', minor'); }
  }

  /** Filtering keeps the order, and everything it should. */
  lemma {:induction false} FilteredIndex(keep: Record -> bool, h: History, i: nat) returns (p: nat)
    requires i < |Filtered(keep, h)|
    ensures i <= p < |h| && Filtered(keep, h)[i] == h[p] && keep(h[p])
  {
    var n := |h| - 1;
    if i < |Filtered(keep, h[..n])| {
      p := FilteredIndex(keep, h[..n], i);
    } else {
      p := n;
      FilteredIsShorter(keep, h[..n]);
    }
  }

  lemma {:induction false} FilteredIsShorter(keep: Record -> bool, h: History)
    ensures |Filtered(keep, h)| <= |h|
  {
    if h != [] { FilteredIsShorter(keep, h[..|h| - 1]); }
  }

  lemma {:induction false} FilteredHas(keep: Record -> bool, h: History, p: nat) returns (i: nat)
    requires p < |h| && keep(h[p])
    ensures i < |Filtered(keep, h)| && Filtered(keep, h)[i] == h[p]
  {
    var n := |h| - 1;
    if p < n {
      i := FilteredHas(keep, h[..n], p);
    } else {
      i := |Filtered(keep, h)| - 1;
    }
  }

  lemma {:induction false} FilteredSorted(keep: Record -> bool, h: History)
    requires SortedHistory(h)
    ensures SortedHistory(Filtered(keep, h))
  {
    if h != [] {
      var n := |h| - 1;
      FilteredSorted(keep, h[..n]);
      forall i | 0 <= i < |Filtered(keep, h[..n])| ensures Less(Filtered(keep, h[..n])[i].key, h[n].key) {
        var p := FilteredIndex(keep, h[..n], i);
      }
    }
  }

  // ----- a non-empty history always keeps a getter -----

  lemma UnifyKeepsObjectPtr(s: string)
    requires StartsWith(s, OBJECT_PTR_OPEN)
    ensures StartsWith(Unify(s), OBJECT_PTR_OPEN)
  {
    ReplaceKeepsObjectPtr(s, FIXED_ARRAY);
    ReplaceKeepsObjectPtr(s, CHUNKED_ARRAY);
    assert STATIC_ARRAY[..2] == "TStatic"[..2] == "TS";
    ReplaceKeepsObjectPtr(s, STATIC_ARRAY);
  }

  lemma ReplaceKeepsObjectPtr(s: string, pat: string)
    requires StartsWith(s, OBJECT_PTR_OPEN)
    requires |pat| > 1 && (pat[0] == 'F' || pat[..2] == "TS")
    ensures StartsWith(ReplaceFirst(s, pat, "TUObjectArray"), OBJECT_PTR_OPEN)
  {
    var at := FindFrom(s, pat, 0);
    if at.Some? {
      var i := at.value;
      ObjectPtrHasNoArray(s, pat, i);
      var r := s[..i] + "TUObjectArray" + s[i + |pat|..];
      assert r[..11] == s[..11];
    }
  }

  lemma ObjectPtrHasNoArray(s: string, pat: string, i: nat)
    requires StartsWith(s, OBJECT_PTR_OPEN) && i <= |s| && StartsWith(s[i..], pat)
    requires |pat| > 1 && (pat[0] == 'F' || pat[..2] == "TS")
    ensures i >= 11
  {
    assert pat[0] == s[i..][..|pat|][0] == s[i] && pat[1] == s[i..][..|pat|][1] == s[i + 1];
    assert pat[0] == 'T' ==> pat[..2][1] == 'S';
    assert forall j :: 0 <= j < 11 ==> s[j] == s[..11][j];
    assert s[..11] == ['T', 'O', 'b', 'j', 'e', 'c', 't', 'P', 't', 'r', '<'];
  }

  /** Skipping raw pointers never leaves a member without a getter. */
  lemma SomeVariantIsKept(h: History)
    requires h != []
    ensures Kept(h, h) != [] && FirstForms(Kept(h, h)) != []
  {
    FirstFormsFacts(Kept(h, h));
    if IsKept(h[0], h) {
      var i := FilteredHas(Keeper(h), h, 0);
    } else {
      var r :| r in h && StartsWith(r.versioned.typeName, OBJECT_PTR_OPEN);
      UnifyKeepsObjectPtr(r.versioned.typeName);
      var p :| 0 <= p < |h| && h[p] == r;
      var i := FilteredHas(Keeper(h), h, p);
    }
  }

  // ----- which types get a getter -----

  lemma KeptForm(h: History, v: Variant)
    requires v in Kept(h, h)
    ensures Normalized(v.typeName) == v.form
  {
    var i :| 0 <= i < |Kept(h, h)| && Kept(h, h)[i] == v;
  }

  lemma {:induction false} SingleForm(vs: seq<Variant>, i: nat)
    requires |FirstForms(vs)| == 1 && i < |vs|
    ensures vs[i].form == FirstForms(vs)[0].form
  {
    var n := |vs| - 1;
    FirstFormsFacts(vs[..n]);
    if n > 0 {
      if i < n {
        SingleForm(vs[..n], i);
      } else {
        var v :| v in vs[..n] && v.form == vs[n].form;
        var j :| 0 <= j < n && vs[..n][j] == v;
        SingleForm(vs[..n], j);
      }
    }
  }

  predicate InPlan(typeName: string, plan: Plan) {
    match plan
    case Standard(t) => typeName == t
    case Unified(t) => typeName == t
    case PerVersion(getters) => exists g <- getters :: g.typeName == typeName
  }

  /** A pointer that is neither an object pointer nor in a container. */
  predicate IsBarePointer(typeName: string) {
    && EndsWith(typeName, "*") && !StartsWith(typeName, "TObjectPtr<")
    && !StartsWith(typeName, "TArray<") && !StartsWith(typeName, "TSet<") && !StartsWith(typeName, "TMap<")
  }

  predicate HasObjectPtr(h: History) { exists r <- h :: StartsWith(r.versioned.typeName, "TObjectPtr<") }

  lemma IsKeptIff(r: Record, h: History)
    ensures IsKept(r, h) <==> !(IsBarePointer(Unify(r.versioned.typeName)) && HasObjectPtr(h))
  {}

  lemma {:induction false} FormIsFirst(vs: seq<Variant>, i: nat) returns (p: nat)
    requires i < |vs|
    ensures p < |FirstForms(vs)| && FirstForms(vs)[p].form == vs[i].form
  {
    var n := |vs| - 1;
    FirstFormsStep(vs);
    if i < n {
      p := FormIsFirst(vs[..n], i);
    } else if Seen(vs[n].form, vs[..n]) {
      var v :| v in vs[..n] && v.form == vs[n].form;
      var j :| 0 <= j < n && vs[..n][j] == v;
      p := FormIsFirst(vs[..n], j);
    } else {
      p := |FirstForms(vs)| - 1;
    }
  }

  lemma PlannedVariant(kept: seq<Variant>, plan: Plan, typeName: string) returns (v: Variant)
    requires kept != [] && InPlan(typeName, plan)
    requires plan == if |FirstForms(kept)| == 1 then Unified(Newest(kept)) else PerVersion(GettersFor(FirstForms(kept)))
    ensures v in kept && v.typeName == typeName
  {
    FirstFormsFacts(kept);
    if |FirstForms(kept)| == 1 {
      v := kept[|kept| - 1];
    } else {
      var g :| g in GettersFor(FirstForms(kept)) && g.typeName == typeName;
      var p :| 0 <= p < |FirstForms(kept)| && GettersFor(FirstForms(kept))[p] == g;
      v := FirstForms(kept)[p];
    }
  }

  lemma PlannedIsKept(m: MemberVariable, typeName: string) returns (r: Record)
    requires m.history != [] && !m.bits.isBitfield && InPlan(typeName, PlanFor(m, false))
    ensures r in m.history && IsKept(r, m.history) && typeName == Unify(r.versioned.typeName)
  {
    var h, kept := m.history, Kept(m.history, m.history);
    SomeVariantIsKept(h);
    var v := PlannedVariant(kept, PlanFor(m, false), typeName);
    var i :| 0 <= i < |kept| && kept[i] == v;
    var q := FilteredIndex(Keeper(h), h, i);
    r := h[q];
  }

  /** Once some version has an object pointer, no bare pointer gets a getter. */
  lemma BarePointersGetNone(m: MemberVariable, typeName: string)
    requires m.history != [] && !m.bits.isBitfield && HasObjectPtr(m.history)
    requires InPlan(typeName, PlanFor(m, false))
    ensures !IsBarePointer(typeName)
  {
    var r := PlannedIsKept(m, typeName);
    IsKeptIff(r, m.history);
  }

  lemma KeptHas(h: History, r: Record) returns (i: nat)
    requires r in h && IsKept(r, h)
    ensures i < |Kept(h, h)| && Kept(h, h)[i] == VariantOf(r)
  {
    var q :| 0 <= q < |h| && h[q] == r;
    i := FilteredHas(Keeper(h), h, q);
  }

  /** Each of the variants has a type of its form in the plan made for them. */
  lemma PlannedForm(kept: seq<Variant>, plan: Plan, i: nat) returns (v: Variant)
    requires i < |kept|
    requires plan == if |FirstForms(kept)| == 1 then Unified(Newest(kept)) else PerVersion(GettersFor(FirstForms(kept)))
    ensures v in kept && v.form == kept[i].form && InPlan(v.typeName, plan)
  {
    FirstFormsFacts(kept);
    if |FirstForms(kept)| == 1 {
      v := kept[|kept| - 1];
      SingleForm(kept, i);
      SingleForm(kept, |kept| - 1);
    } else {
      var p := FormIsFirst(kept, i);
      v := FirstForms(kept)[p];
      assert GettersFor(FirstForms(kept))[p] in GettersFor(FirstForms(kept));
    }
  }

  /** Every other recorded type gets one: some getter has its normal form. */
  lemma OthersGetOne(m: MemberVariable, r: Record) returns (typeName: string)
    requires m.history != [] && !m.bits.isBitfield && r in m.history
    requires !(IsBarePointer(Unify(r.versioned.typeName)) && HasObjectPtr(m.history))
    ensures InPlan(typeName, PlanFor(m, false)) && Normalized(typeName) == Normalized(Unify(r.versioned.typeName))
  {
    IsKeptIff(r, m.history);
    var i := KeptHas(m.history, r);
    var v := PlannedForm(Kept(m.history, m.history), PlanFor(m, false), i);
    KeptForm(m.history, v);
    typeName := v.typeName;
  }

  /** All types that are kept have one normal form. */
  predicate OneForm(h: History) {
    forall r <- h, s <- h :: IsKept(r, h) && IsKept(s, h) ==> Form(r.versioned.typeName) == Form(s.versioned.typeName)
  }

  lemma {:induction false} OneFormOneGetter(vs: seq<Variant>)
    requires vs != [] && forall v <- vs, w <- vs :: v.form == w.form
    ensures |FirstForms(vs)| == 1
  {
    var n := |vs| - 1;
    if n > 0 {
      OneFormOneGetter(vs[..n]);
      assert vs[0] in vs[..n] && vs[0].form == vs[n].form;
      FirstFormsStep(vs);
    }
  }

  lemma SingleIsOneForm(h: History)
    requires |FirstForms(Kept(h, h))| == 1
    ensures OneForm(h)
  {
    var kept := Kept(h, h);
    forall r | r in h && IsKept(r, h) ensures Form(r.versioned.typeName) == FirstForms(kept)[0].form {
      var i := KeptHas(h, r);
      SingleForm(kept, i);
    }
  }

  lemma KeptStems(h: History, v: Variant) returns (r: Record)
    requires v in Kept(h, h)
    ensures r in h && IsKept(r, h) && VariantOf(r) == v
  {
    var i :| 0 <= i < |Kept(h, h)| && Kept(h, h)[i] == v;
    var p := FilteredIndex(Keeper(h), h, i);
    r := h[p];
  }

  lemma SingleFormIff(h: History)
    requires h != []
    ensures |FirstForms(Kept(h, h))| == 1 <==> OneForm(h)
  {
    var kept := Kept(h, h);
    SomeVariantIsKept(h);
    if |FirstForms(kept)| == 1 { SingleIsOneForm(h); }
    if OneForm(h) {
      forall v <- kept, w <- kept ensures v.form == w.form {
        var r := KeptStems(h, v);
        var t := KeptStems(h, w);
      }
      OneFormOneGetter(kept);
    }
  }

  /** Which plan is made: a plain getter of the current type when no change was
      recorded, for an inherited member and for a bitfield; otherwise one getter for
      all versions exactly when the kept types have one normal form. */
  lemma PlanKindIff(m: MemberVariable, inherited: bool)
    ensures PlanFor(m, inherited).Standard? <==> m.history == [] || inherited || m.bits.isBitfield
    ensures PlanFor(m, inherited).Standard? ==> PlanFor(m, inherited).typeName == Unify(m.typeName)
    ensures !PlanFor(m, inherited).Standard? ==> (PlanFor(m, inherited).Unified? <==> OneForm(m.history))
  {
    if m.history != [] { SingleFormIff(m.history); }
  }

  lemma {:induction false} LastKept(keep: Record -> bool, h: History) returns (p: nat)
    requires Filtered(keep, h) != []
    ensures p < |h| && keep(h[p]) && Filtered(keep, h)[|Filtered(keep, h)| - 1] == h[p]
    ensures forall q :: p < q < |h| ==> !keep(h[q])
  {
    var n := |h| - 1;
    if keep(h[n]) {
      p := n;
    } else {
      assert Filtered(keep, h) == Filtered(keep, h[..n]);
      p := LastKept(keep, h[..n]);
    }
  }

  lemma NewestIs(rs: History)
    requires rs != []
    ensures Newest(Variants(rs)) == Unify(rs[|rs| - 1].versioned.typeName)
  {}

  lemma NewestKeptBy(keep: Record -> bool, h: History) returns (p: nat)
    requires Filtered(keep, h) != []
    ensures p < |h| && keep(h[p]) && Newest(Variants(Filtered(keep, h))) == Unify(h[p].versioned.typeName)
    ensures forall q :: p < q < |h| ==> !keep(h[q])
  {
    p := LastKept(keep, h);
    NewestIs(Filtered(keep, h));
  }

  /** The newest kept record, and the type it gives. */
  lemma NewestKept(h: History) returns (p: nat)
    requires Kept(h, h) != []
    ensures p < |h| && IsKept(h[p], h) && Newest(Kept(h, h)) == Unify(h[p].versioned.typeName)
    ensures forall q :: p < q < |h| ==> !IsKept(h[q], h)
  {
    p := NewestKeptBy(Keeper(h), h);
    forall q | p < q < |h| ensures !IsKept(h[q], h) {
      assert !Keeper(h)(h[q]);
    }
  }

  /** The one getter has the type of the newest record that is kept. */
  lemma UnifiedIsNewest(m: MemberVariable) returns (p: nat)
    requires PlanFor(m, false).Unified?
    ensures p < |m.history| && IsKept(m.history[p], m.history)
    ensures PlanFor(m, false).typeName == Unify(m.history[p].versioned.typeName)
    ensures forall q :: p < q < |m.history| ==> !IsKept(m.history[q], m.history)
  {
    SomeVariantIsKept(m.history);
    p := NewestKept(m.history);
    assert PlanFor(m, false) == Unified(Newest(Kept(m.history, m.history)));
  }

  /** Each of several getters has the type and the version of the first kept record
      of its form, and they are in the order of these records. */
  predicate IsFirstOfForm(h: History, p: nat, v: Variant) {
    && p < |h| && IsKept(h[p], h) && VariantOf(h[p]) == v
    && forall q :: 0 <= q < p && IsKept(h[q], h) ==> Form(h[q].versioned.typeName) != v.form
  }

  /** Where in the list each first form is. */
  lemma {:induction false} FirstFormIndex(vs: seq<Variant>, i: nat) returns (p: nat)
    requires i < |FirstForms(vs)|
    ensures i <= p < |vs| && FirstForms(vs)[i] == vs[p] && !Seen(vs[p].form, vs[..p])
  {
    var n := |vs| - 1;
    FirstFormsStep(vs);
    if i < |FirstForms(vs[..n])| {
      p := FirstFormIndex(vs[..n], i);
      assert vs[..n][..p] == vs[..p];
    } else {
      FewerFirstForms(vs[..n]);
      p := n;
    }
  }

  lemma {:induction false} FewerFirstForms(vs: seq<Variant>)
    ensures |FirstForms(vs)| <= |vs|
  {
    if vs != [] {
      FewerFirstForms(vs[..|vs| - 1]);
      FirstFormsStep(vs);
    }
  }

  lemma SortedIndices(h: History, p: nat, q: nat)
    requires SortedHistory(h) && p < |h| && q < |h| && Less(h[p].key, h[q].key)
    ensures p < q
  {
    LessTotal(h[p].key, h[q].key);
  }

  /** What is kept of the records before one comes before it. */
  lemma FilteredBefore(keep: Record -> bool, h: History, p: nat, i: nat, q: nat) returns (j: nat)
    requires q < p < |h| && keep(h[q]) && SortedHistory(h)
    requires i < |Filtered(keep, h)| && Filtered(keep, h)[i] == h[p]
    ensures j < i && Filtered(keep, h)[j] == h[q]
  {
    j := FilteredHas(keep, h, q);
    FilteredSorted(keep, h);
    SortedIndices(Filtered(keep, h), j, i);
  }

  lemma GetterStems(m: MemberVariable, i: nat) returns (p: nat)
    requires PlanFor(m, false).PerVersion? && SortedHistory(m.history) && i < |PlanFor(m, false).getters|
    ensures p < |m.history| && IsFirstOfForm(m.history, p, VariantOf(m.history[p]))
    ensures var g, v := PlanFor(m, false).getters[i], m.history[p].versioned;
      g.typeName == Unify(v.typeName) && g.major == v.major && g.minor == v.minor
  {
    var h, kept := m.history, Kept(m.history, m.history);
    var j := FirstFormIndex(kept, i);
    p := FilteredIndex(Keeper(h), h, j);
    forall q | 0 <= q < p && IsKept(h[q], h) ensures Form(h[q].versioned.typeName) != kept[j].form {
      var n := FilteredBefore(Keeper(h), h, p, j, q);
      assert kept[..j][n] == VariantOf(h[q]);
      assert kept[..j][n] in kept[..j];
    }
  }

  // ----- suffixes -----

  /** The first getter is the base one; the suffix of each other, read as a number,
      is a hundred times its major version plus its minor one. */
  lemma GettersAreNamed(firsts: seq<Variant>, i: nat)
    requires i < |firsts| && firsts[i].minor < 100
    ensures var g := GettersFor(firsts)[i];
      && g.typeName == firsts[i].typeName && g.major == firsts[i].major && g.minor == firsts[i].minor
      && (i == 0 ==> g.suffix == "Base")
      && (i > 0 ==> AllDigits(g.suffix, Dec) && Value(g.suffix, Dec) == 100 * g.major + g.minor)
  {
    SuffixReads(firsts[i].major, firsts[i].minor);
  }

  lemma SuffixReads(major: nat, minor: nat)
    requires minor < 100
    ensures AllDigits(Suffix(major, minor), Dec) && Value(Suffix(major, minor), Dec) == 100 * major + minor
  {
    var d := Digits(major, Dec);
    var tens, ones := Digit(minor / 10), Digit(minor % 10);
    Padded2Splits(minor);
    DigitsRoundTrip(major, Dec);
    DigitRoundTrip(minor / 10, Dec);
    DigitRoundTrip(minor % 10, Dec);
    ValueOfAppended(d, tens, Dec);
    ValueOfAppended(d + [tens], ones, Dec);
    assert Suffix(major, minor) == d + [tens] + [ones];
  }

  /** Distinct versions get distinct suffixes, none of them `Base`. */
  lemma SuffixesAreDistinct(a: Variant, b: Variant)
    requires a.minor < 100 && b.minor < 100
    ensures Suffix(a.major, a.minor) == Suffix(b.major, b.minor) <==> a.major == b.major && a.minor == b.minor
    ensures Suffix(a.major, a.minor) != "Base"
  {
    var s, t := Suffix(a.major, a.minor), Suffix(b.major, b.minor);
    Padded2Splits(a.minor);
    Padded2Splits(b.minor);
    DigitsRoundTrip(a.major, Dec);
    assert s[|s| - 2] == Digit(a.minor / 10) && s[|s| - 1] == Digit(a.minor % 10);
    assert t[|t| - 2] == Digit(b.minor / 10) && t[|t| - 1] == Digit(b.minor % 10);
    if s == t {
      assert s[..|s| - 2] == Digits(a.major, Dec) && t[..|t| - 2] == Digits(b.major, Dec);
      DigitsInjective(a.major, b.major, Dec);
    }
  }

  /** The suffix tells the versions apart. */
  predicate TellsApart(major: nat, minor: nat, major': nat, minor': nat) {
    Suffix(major, minor) == Suffix(major', minor') ==> major == major' && minor == minor'
  }

  ghost predicate AllToldApart(bound: nat) {
    forall a: nat, x: nat, b: nat, y: nat :: x < bound && y < bound ==> TellsApart(a, x, b, y)
  }

  /** With a three-digit minor version they can clash. */
  lemma ThreeDigitMinorsClash()
    ensures Suffix(1, 100) == Suffix(11, 0)
  {
    assert Digits(100, Dec) == Digits(10, Dec) + "0" && Digits(10, Dec) == "10";
    assert Digits(11, Dec) == "11";
  }

  /** The suffix tells all versions with minors below a bound apart exactly when
      the bound is at most a hundred. */
  lemma SuffixesTellApartIff(bound: nat)
    ensures AllToldApart(bound) <==> bound <= 100
  {
    if bound <= 100 {
      forall a: nat, x: nat, b: nat, y: nat | x < bound && y < bound ensures TellsApart(a, x, b, y) {
        SuffixesAreDistinct(Variant("", "", a, x), Variant("", "", b, y));
      }
    } else {
      ThreeDigitMinorsClash();
      assert !TellsApart(1, 100, 11, 0);
    }
  }

  /** The getters of a member have pairwise distinct names. */
  lemma GetterNamesAreDistinct(firsts: seq<Variant>, i: nat, j: nat)
    requires VersionsAscend(firsts) && (forall v <- firsts :: v.minor < 100) && i < j < |firsts|
    ensures GettersFor(firsts)[i].suffix != GettersFor(firsts)[j].suffix
  {
    SuffixesAreDistinct(firsts[i], firsts[j]);
    SuffixesAreDistinct(firsts[j], firsts[j]);
  }

  // ----- versions of a canonical history -----

  ghost predicate CanonicalHistory(h: History) {
    SortedHistory(h) && forall r <- h :: Canonical(InfoOf(r))
  }

  lemma KeptVersionsAscend(h: History)
    requires CanonicalHistory(h)
    ensures VersionsAscend(Kept(h, h))
  {
    var rs := Filtered(Keeper(h), h);
    FilteredSorted(Keeper(h), h);
    forall i, j | 0 <= i < j < |rs|
      ensures Earlier(rs[i].versioned.major, rs[i].versioned.minor, rs[j].versioned.major, rs[j].versioned.minor)
    {
      var p := FilteredIndex(Keeper(h), h, i);
      var q := FilteredIndex(Keeper(h), h, j);
      CanonicalOrder(InfoOf(rs[i]), InfoOf(rs[j]));
    }
  }

  /** Between a record and the next, every version has the same record in force. */
  lemma {:induction false} InForceBounds(h: History, v: string, q: nat)
    requires h != [] && SortedHistory(h) && AtMost(h[0].key, v) && q < |h|
    ensures Less(v, h[q].key) <==> Less(InForce(h, v).key, h[q].key)
  {
    var n := |h| - 1;
    var r := InForce(h, v);
    if |h| == 1 || AtMost(h[n].key, v) {
      LessTotal(h[n].key, h[n].key);
      if q < n {
        assert Less(h[q].key, h[n].key);
        LessTotal(h[q].key, h[n].key);
        if Less(v, h[q].key) { LessTransitive(v, h[q].key, h[n].key); }
      } else {
        LessTotal(v, h[n].key);
      }
    } else if q < n {
      InForceBounds(h[..n], v, q);
    } else {
      var i :| 0 <= i < n && h[..n][i] == r;
      assert h[i] == r;
    }
  }

  /** So the getters see a version as they see the version of its record. */
  lemma GettersSeeTheRecord(h: History, v: PdbNameInfo, x: Variant)
    requires h != [] && CanonicalHistory(h) && Canonical(v) && AtMost(h[0].key, v.baseVersion)
    requires x in Kept(h, h)
    ensures var r := InForce(h, v.baseVersion);
      Earlier(v.major, v.minor, x.major, x.minor) <==> Earlier(r.versioned.major, r.versioned.minor, x.major, x.minor)
  {
    var i :| 0 <= i < |Kept(h, h)| && Kept(h, h)[i] == x;
    var q := FilteredIndex(Keeper(h), h, i);
    var r := InForce(h, v.baseVersion);
    InForceBounds(h, v.baseVersion, q);
    CanonicalOrder(v, InfoOf(h[q]));
    CanonicalOrder(InfoOf(r), InfoOf(h[q]));
  }

  // ----- end to end -----

  /** The type of the getter to use is that of a kept variant: of the newest
      when one getter is left, or else of the first form in force. */
  function ChosenVariant(kept: seq<Variant>, major: nat, minor: nat): Variant
    requires kept != [] && FirstForms(kept) != []
  {
    if |FirstForms(kept)| == 1 then kept[|kept| - 1] else VariantAt(FirstForms(kept), major, minor)
  }

  lemma ChosenForm(kept: seq<Variant>, major: nat, minor: nat)
    requires kept != [] && FirstForms(kept) != []
    ensures ChosenVariant(kept, major, minor) in kept
    ensures ChosenVariant(kept, major, minor).form == VariantAt(FirstForms(kept), major, minor).form
  {
    FirstFormsFacts(kept);
    if |FirstForms(kept)| == 1 {
      SingleForm(kept, |kept| - 1);
    }
  }

  lemma PlannedType(kept: seq<Variant>, plan: Plan, major: nat, minor: nat)
    requires kept != [] && FirstForms(kept) != []
    requires plan == if |FirstForms(kept)| == 1 then Unified(Newest(kept)) else PerVersion(GettersFor(FirstForms(kept)))
    ensures TypeInPlan(plan, major, minor) == ChosenVariant(kept, major, minor).typeName
  {
    GetterOfVariant(FirstForms(kept), major, minor);
  }

  lemma PlanForm(m: MemberVariable, major: nat, minor: nat)
    requires m.history != [] && !m.bits.isBitfield
    ensures FirstForms(Kept(m.history, m.history)) != []
    ensures Normalized(TypeInPlan(PlanFor(m, false), major, minor))
         == VariantAt(FirstForms(Kept(m.history, m.history)), major, minor).form
  {
    var kept := Kept(m.history, m.history);
    SomeVariantIsKept(m.history);
    ChosenForm(kept, major, minor);
    PlannedType(kept, PlanFor(m, false), major, minor);
    KeptForm(m.history, ChosenVariant(kept, major, minor));
  }

  /** The getter in force at the version has the normal form of the type. */
  predicate GetterRight(m: MemberVariable, info: PdbNameInfo, typeName: string) {
    Normalized(TypeInPlan(PlanFor(m, false), info.major, info.minor)) == Form(typeName)
  }

  /** It has that of the version's type, which is the last joined PDB's. */
  predicate RightAtVersion(m: MemberVariable, occ: seq<Occurrence>, o: Occurrence)
    requires occ != []
  {
    GetterRight(m, o.info, TypeAt(occ, o.info.baseVersion))
  }

  predicate RecordKept(m: MemberVariable, o: Occurrence) {
    m.history == [] || IsKept(InForce(m.history, o.info.baseVersion), m.history)
  }

  /** `m` records occurrences at ascending canonical versions, equal ones included. */
  ghost predicate RecordsVersions(m: MemberVariable, source: PdbNameInfo, occ: seq<Occurrence>) {
    && occ != [] && Represents(m, source, occ) && !m.bits.isBitfield
    && Canonical(source) && (forall o <- occ :: Canonical(o.info))
    && AtMost(source.baseVersion, occ[0].info.baseVersion)
    && OccAscend(occ)
  }

  lemma HistoryIsCanonical(m: MemberVariable, source: PdbNameInfo, occ: seq<Occurrence>)
    requires RecordsVersions(m, source, occ)
    ensures CanonicalHistory(m.history)
  {
    var h := m.history;
    forall r <- h ensures Canonical(InfoOf(r)) {
      var i :| 0 <= i < |h| && h[i] == r;
      if !(i == 0 && InfoOf(h[i]) == source) {
        var o :| o in occ && o.info == InfoOf(h[i]);
      }
    }
  }

  lemma OccurrenceType(m: MemberVariable, source: PdbNameInfo, occ: seq<Occurrence>, n: nat)
    requires RecordsVersions(m, source, occ) && n < |occ|
    ensures RecordedType(m, occ[n].info.baseVersion) == TypeAt(occ, occ[n].info.baseVersion)
    ensures AtMost(source.baseVersion, occ[n].info.baseVersion)
    ensures m.history != [] ==> AtMost(m.history[0].key, occ[n].info.baseVersion)
  {
    var first, key := occ[0].info.baseVersion, occ[n].info.baseVersion;
    LessTotal(first, key);
    AtMostTransitive(source.baseVersion, first, key);
  }

  /** At an occurrence whose record is the kept variant `i`, the getter is right
      iff it is right for that variant. */
  lemma RightAtOccurrence(m: MemberVariable, source: PdbNameInfo, occ: seq<Occurrence>, n: nat, i: nat)
    requires RecordsVersions(m, source, occ) && n < |occ| && m.history != []
    requires i < |Kept(m.history, m.history)|
    requires Filtered(Keeper(m.history), m.history)[i] == InForce(m.history, occ[n].info.baseVersion)
    ensures RightAtVersion(m, occ, occ[n]) <==> RightAt(Kept(m.history, m.history), i)
  {
    var h, o := m.history, occ[n];
    var kept, r := Kept(h, h), InForce(h, o.info.baseVersion);
    HistoryIsCanonical(m, source, occ);
    OccurrenceType(m, source, occ, n);
    PlanForm(m, o.info.major, o.info.minor);
    FirstFormsFacts(kept);
    forall v <- FirstForms(kept)
      ensures Earlier(o.info.major, o.info.minor, v.major, v.minor)
         <==> Earlier(r.versioned.major, r.versioned.minor, v.major, v.minor)
    {
      GettersSeeTheRecord(h, o.info, v);
    }
    VariantAtSame(FirstForms(kept), o.info.major, o.info.minor, r.versioned.major, r.versioned.minor);
    assert kept[i] == VariantOf(r);
  }

  lemma FirstIsRight(vs: seq<Variant>)
    requires VersionsAscend(vs) && vs != []
    ensures RightAt(vs, 0)
  {
    InForceIsNewest(vs, 0);
    NewlyStep(vs, 0);
  }

  /** In terms of the recorded history: right wherever the record is kept, iff
      the kept variants are contiguous. */
  lemma RightByHistoryIff(m: MemberVariable, source: PdbNameInfo, occ: seq<Occurrence>)
    requires RecordsVersions(m, source, occ)
    ensures (forall o <- occ :: RecordKept(m, o) ==> RightAtVersion(m, occ, o))
       <==> Contiguous(Kept(m.history, m.history))
  {
    var h := m.history;
    var kept := Kept(h, h);
    if h == [] {
      forall o <- occ ensures RightAtVersion(m, occ, o) {
        var n :| 0 <= n < |occ| && occ[n] == o;
        OccurrenceType(m, source, occ, n);
      }
    } else {
      HistoryIsCanonical(m, source, occ);
      KeptVersionsAscend(h);
      RightIffContiguous(kept);
      if Contiguous(kept) {
        forall o <- occ | RecordKept(m, o) ensures RightAtVersion(m, occ, o) {
          var n :| 0 <= n < |occ| && occ[n] == o;
          var p :| 0 <= p < |h| && h[p] == InForce(h, o.info.baseVersion);
          var i := FilteredHas(Keeper(h), h, p);
          RightAtOccurrence(m, source, occ, n, i);
        }
      }
      if forall o <- occ :: RecordKept(m, o) ==> RightAtVersion(m, occ, o) {
        forall i | 0 <= i < |kept| ensures RightAt(kept, i) {
          RightWhereRecorded(m, source, occ, i);
        }
      }
    }
  }

  lemma RightWhereRecorded(m: MemberVariable, source: PdbNameInfo, occ: seq<Occurrence>, i: nat)
    requires RecordsVersions(m, source, occ) && m.history != [] && i < |Kept(m.history, m.history)|
    requires forall o <- occ :: RecordKept(m, o) ==> RightAtVersion(m, occ, o)
    ensures RightAt(Kept(m.history, m.history), i)
  {
    var h := m.history;
    HistoryIsCanonical(m, source, occ);
    KeptVersionsAscend(h);
    var p := FilteredIndex(Keeper(h), h, i);
    if OccursIn(InfoOf(h[p]), occ) {
      var o :| o in occ && o.info == InfoOf(h[p]);
      var n :| 0 <= n < |occ| && occ[n] == o;
      LessTotal(h[p].key, h[p].key);
      InForceBetween(h, p, h[p].key);
      assert RecordKept(m, o) && RightAtVersion(m, occ, o);
      RightAtOccurrence(m, source, occ, n, i);
    } else {
      FirstIsRight(Kept(h, h));
    }
  }

  // ----- the same in terms of the types that were joined -----

  /** The versions a member's types are recorded for: the container's first PDB's,
      then those that have the member. */
  function Versions(source: PdbNameInfo, occ: seq<Occurrence>): (vs: seq<string>)
    ensures |vs| == |occ| + 1
    ensures vs[0] == source.baseVersion && forall i :: 0 < i < |vs| ==> vs[i] == occ[i - 1].info.baseVersion
  {
    [source.baseVersion] + seq(|occ|, i requires 0 <= i < |occ| => occ[i].info.baseVersion)
  }

  /** The member's type at each of these versions. */
  function Timeline(source: PdbNameInfo, occ: seq<Occurrence>): (types: seq<string>)
    requires occ != []
    ensures |types| == |occ| + 1
    ensures forall i :: 0 <= i < |types| ==> types[i] == TypeAt(occ, Versions(source, occ)[i])
  {
    seq(|occ| + 1, i requires 0 <= i < |occ| + 1 => TypeAt(occ, Versions(source, occ)[i]))
  }

  /** A raw pointer gives way when one of the types is an object pointer. */
  predicate GivesWay(typeName: string, types: seq<string>) {
    IsRawPointer(Unify(typeName)) && exists t <- types :: StartsWith(t, OBJECT_PTR_OPEN)
  }

  /** What matters of an item: its normal form, and whether it is kept. */
  datatype Item = Item(form: string, kept: bool)

  /** Among the kept items, no form comes back after another has replaced it. */
  predicate NoReturn(items: seq<Item>) {
    forall i, j, n :: 0 <= i < j < n < |items| && items[i].kept && items[j].kept && items[n].kept
      ==> items[i].form == items[n].form ==> items[j].form == items[i].form
  }

  function Judged(types: seq<string>, judge: string -> Item): (items: seq<Item>)
    ensures |items| == |types| && forall i :: 0 <= i < |types| ==> items[i] == judge(types[i])
  {
    seq(|types|, i requires 0 <= i < |types| => judge(types[i]))
  }

  function Judge(types: seq<string>): string -> Item { t => Item(Form(t), !GivesWay(t, types)) }

  function TypeItems(types: seq<string>): seq<Item> { Judged(types, Judge(types)) }

  function RecordItems(h: History): seq<Item> {
    seq(|h|, i requires 0 <= i < |h| => Item(Form(h[i].versioned.typeName), IsKept(h[i], h)))
  }

  function VariantItems(vs: seq<Variant>): seq<Item> {
    seq(|vs|, i requires 0 <= i < |vs| => Item(vs[i].form, true))
  }

  /** No normal form returns among the types that do not give way. */
  predicate NoFormReturns(types: seq<string>) { NoReturn(TypeItems(types)) }

  ghost predicate HasImage(maps: (nat, nat) -> bool, i: nat) { exists p: nat :: maps(i, p) }

  /** What does not return among `ys` does not among items that map into `ys` in order. */
  lemma NoReturnTransfers(xs: seq<Item>, ys: seq<Item>, maps: (nat, nat) -> bool)
    requires NoReturn(ys)
    requires forall i: nat :: i < |xs| && xs[i].kept ==> HasImage(maps, i)
    requires forall i: nat, p: nat :: maps(i, p) ==> i < |xs| && p < |ys| && xs[i] == ys[p]
    requires forall i: nat, j: nat, p: nat, q: nat :: i < j && maps(i, p) && maps(j, q) ==> p <= q
    ensures NoReturn(xs)
  {
    forall i: nat, j: nat, n: nat | i < j < n < |xs| && xs[i].kept && xs[j].kept && xs[n].kept
      && xs[i].form == xs[n].form ensures xs[j].form == xs[i].form
    {
      assert HasImage(maps, i) && HasImage(maps, j) && HasImage(maps, n);
      var p: nat :| maps(i, p);
      var q: nat :| maps(j, q);
      var s: nat :| maps(n, s);
      assert p <= q <= s;
    }
  }

  lemma ContiguousIsNoReturn(vs: seq<Variant>)
    ensures Contiguous(vs) <==> NoReturn(VariantItems(vs))
  {
    var items := VariantItems(vs);
    if NoReturn(items) {
      forall i, j, n | 0 <= i < j < n < |vs| && vs[i].form == vs[n].form ensures vs[j].form == vs[i].form {
        assert items[i].form == items[n].form ==> items[j].form == items[i].form;
      }
    }
  }

  /** Kept variant `i` stems from record `p`. */
  predicate StemsFrom(h: History, i: nat, p: nat) {
    i < |Filtered(Keeper(h), h)| && p < |h| && Filtered(Keeper(h), h)[i] == h[p]
  }

  lemma StemsFacts(h: History, i: nat, p: nat)
    requires StemsFrom(h, i, p)
    ensures i < |VariantItems(Kept(h, h))| && VariantItems(Kept(h, h))[i] == RecordItems(h)[p]
  {
    var q := FilteredIndex(Keeper(h), h, i);
  }

  lemma StemsInOrder(h: History, i: nat, p: nat, j: nat, q: nat)
    requires SortedHistory(h) && StemsFrom(h, i, p) && StemsFrom(h, j, q)
    ensures i < j <==> p < q
  {
    var rs := Filtered(Keeper(h), h);
    FilteredSorted(Keeper(h), h);
    if i < j { SortedIndices(h, p, q); }
    if p < q { SortedIndices(rs, i, j); }
  }

  lemma ContiguousIffNoRecordReturns(h: History)
    requires SortedHistory(h)
    ensures Contiguous(Kept(h, h)) <==> NoReturn(RecordItems(h))
  {
    var kept, records := VariantItems(Kept(h, h)), RecordItems(h);
    ContiguousIsNoReturn(Kept(h, h));
    var down := (i: nat, p: nat) => StemsFrom(h, i, p);
    var up := (p: nat, i: nat) => StemsFrom(h, i, p);
    forall i: nat, p: nat | StemsFrom(h, i, p) ensures i < |kept| && kept[i] == records[p] { StemsFacts(h, i, p); }
    forall i: nat, j: nat, p: nat, q: nat | StemsFrom(h, i, p) && StemsFrom(h, j, q) ensures i < j <==> p < q {
      StemsInOrder(h, i, p, j, q);
    }
    if NoReturn(records) {
      forall i: nat | i < |kept| ensures HasImage(down, i) {
        var p := FilteredIndex(Keeper(h), h, i);
        assert down(i, p);
      }
      NoReturnTransfers(kept, records, down);
    }
    if NoReturn(kept) {
      forall p: nat | p < |h| && records[p].kept ensures HasImage(up, p) {
        var i := FilteredHas(Keeper(h), h, p);
        assert up(p, i);
      }
      NoReturnTransfers(records, kept, up);
    }
  }

  /** The index of the record in force. */
  function InForceIndex(h: History, v: string): (p: nat)
    requires h != []
    ensures p < |h| && h[p] == InForce(h, v)
  {
    if |h| == 1 || AtMost(h[|h| - 1].key, v) then |h| - 1 else InForceIndex(h[..|h| - 1], v)
  }

  lemma {:induction false} InForceMonotone(h: History, u: string, v: string)
    requires h != [] && AtMost(u, v)
    ensures InForceIndex(h, u) <= InForceIndex(h, v)
  {
    var n := |h| - 1;
    if n > 0 && !AtMost(h[n].key, v) {
      if AtMost(h[n].key, u) { AtMostTransitive(h[n].key, u, v); }
      InForceMonotone(h[..n], u, v);
    }
  }

  lemma VersionsAscendAtMost(source: PdbNameInfo, occ: seq<Occurrence>, i: nat, j: nat)
    requires occ != [] && OccAscend(occ) && AtMost(source.baseVersion, occ[0].info.baseVersion)
    requires i <= j <= |occ|
    ensures AtMost(Versions(source, occ)[i], Versions(source, occ)[j])
    ensures AtMost(source.baseVersion, Versions(source, occ)[j])
  {
    var vs := Versions(source, occ);
    LessTotal(vs[i], vs[i]);
    LessTotal(vs[1], vs[1]);
    if j > 0 { AtMostTransitive(vs[0], vs[1], vs[j]); }
  }

  /** Each joined version has a record, with its type, in the same order. */
  lemma RecordOfVersion(m: MemberVariable, source: PdbNameInfo, occ: seq<Occurrence>, i: nat)
    requires RecordsVersions(m, source, occ) && m.history != [] && i <= |occ|
    ensures var p := InForceIndex(m.history, Versions(source, occ)[i]);
      m.history[p].versioned.typeName == Timeline(source, occ)[i]
  {
    VersionsAscendAtMost(source, occ, 0, i);
    assert RecordedType(m, Versions(source, occ)[i]) == TypeAt(occ, Versions(source, occ)[i]);
  }

  lemma RecordIsTypeAt(m: MemberVariable, source: PdbNameInfo, occ: seq<Occurrence>, p: nat)
    requires occ != [] && Represents(m, source, occ) && p < |m.history|
    requires AtMost(source.baseVersion, m.history[p].key)
    ensures m.history[p].versioned.typeName == TypeAt(occ, m.history[p].key)
  {
    var h := m.history;
    LessTotal(h[p].key, h[p].key);
    InForceBetween(h, p, h[p].key);
    assert RecordedType(m, h[p].key) == TypeAt(occ, h[p].key);
  }

  /** And each record is that of a joined version. */
  lemma VersionOfRecord(m: MemberVariable, source: PdbNameInfo, occ: seq<Occurrence>, p: nat) returns (i: nat)
    requires RecordsVersions(m, source, occ) && p < |m.history|
    ensures i <= |occ| && Versions(source, occ)[i] == m.history[p].key
    ensures Timeline(source, occ)[i] == m.history[p].versioned.typeName
  {
    var h := m.history;
    if OccursIn(InfoOf(h[p]), occ) {
      var o :| o in occ && o.info == InfoOf(h[p]);
      var n :| 0 <= n < |occ| && occ[n] == o;
      i := n + 1;
    } else {
      i := 0;
    }
    VersionsAscendAtMost(source, occ, 0, i);
    RecordIsTypeAt(m, source, occ, p);
  }

  /** A type gives way among the joined types iff its record is skipped. */
  lemma GivesWayIffSkipped(m: MemberVariable, source: PdbNameInfo, occ: seq<Occurrence>, r: Record)
    requires RecordsVersions(m, source, occ) && m.history != []
    ensures GivesWay(r.versioned.typeName, Timeline(source, occ)) <==> !IsKept(r, m.history)
  {
    var h, types := m.history, Timeline(source, occ);
    if t :| t in types && StartsWith(t, OBJECT_PTR_OPEN) {
      var i :| 0 <= i < |types| && types[i] == t;
      RecordOfVersion(m, source, occ, i);
      assert InForce(h, Versions(source, occ)[i]) in h;
    }
    if s :| s in h && StartsWith(s.versioned.typeName, OBJECT_PTR_OPEN) {
      var p :| 0 <= p < |h| && h[p] == s;
      var i := VersionOfRecord(m, source, occ, p);
      assert types[i] in types;
    }
  }

  lemma VersionIndices(source: PdbNameInfo, occ: seq<Occurrence>, i: nat, j: nat)
    requires occ != [] && OccAscend(occ) && AtMost(source.baseVersion, occ[0].info.baseVersion)
    requires i <= |occ| && j <= |occ| && Less(Versions(source, occ)[i], Versions(source, occ)[j])
    ensures i < j
  {
    if j <= i { VersionsAscendAtMost(source, occ, j, i); }
  }

  /** Record `p` was made at version `i` of the timeline. */
  predicate MadeThere(h: History, source: PdbNameInfo, occ: seq<Occurrence>, p: nat, i: nat)
    requires occ != []
  {
    && i <= |occ| && p < |h| && Versions(source, occ)[i] == h[p].key
    && Timeline(source, occ)[i] == h[p].versioned.typeName
  }

  lemma SameItem(m: MemberVariable, source: PdbNameInfo, occ: seq<Occurrence>, i: nat, p: nat)
    requires RecordsVersions(m, source, occ) && m.history != []
    requires i <= |occ| && p < |m.history| && Timeline(source, occ)[i] == m.history[p].versioned.typeName
    ensures TypeItems(Timeline(source, occ))[i] == RecordItems(m.history)[p]
  {
    GivesWayIffSkipped(m, source, occ, m.history[p]);
  }

  /** Items of the timeline and of the records agree wherever the types do. */
  predicate Agree(h: History, types: seq<string>, xs: seq<Item>, ys: seq<Item>) {
    && |xs| == |types| && |ys| == |h|
    && forall i, p :: 0 <= i < |xs| && 0 <= p < |ys| && types[i] == h[p].versioned.typeName ==> xs[i] == ys[p]
  }

  /** Where in the history each version's record is. */
  function Places(h: History, vs: seq<string>): (places: seq<nat>)
    requires h != []
    ensures |places| == |vs| && forall i :: 0 <= i < |vs| ==> places[i] == InForceIndex(h, vs[i]) < |h|
  {
    seq(|vs|, i requires 0 <= i < |vs| => InForceIndex(h, vs[i]))
  }

  lemma NoReturnAlong(xs: seq<Item>, ys: seq<Item>, places: seq<nat>)
    requires NoReturn(ys) && |places| == |xs|
    requires forall i: nat :: i < |xs| ==> places[i] < |ys| && xs[i] == ys[places[i]]
    requires forall i: nat, j: nat :: i < j < |xs| ==> places[i] <= places[j]
    ensures NoReturn(xs)
  {
    var maps := (i: nat, p: nat) => i < |xs| && p == places[i];
    forall i: nat | i < |xs| ensures HasImage(maps, i) { assert maps(i, places[i]); }
    NoReturnTransfers(xs, ys, maps);
  }

  lemma InForceInOrder(m: MemberVariable, source: PdbNameInfo, occ: seq<Occurrence>, i: nat, j: nat)
    requires RecordsVersions(m, source, occ) && m.history != [] && i <= j <= |occ|
    ensures var vs := Versions(source, occ); InForceIndex(m.history, vs[i]) <= InForceIndex(m.history, vs[j])
  {
    VersionsAscendAtMost(source, occ, i, j);
    InForceMonotone(m.history, Versions(source, occ)[i], Versions(source, occ)[j]);
  }

  lemma TimelineFollowsRecords(
      m: MemberVariable, source: PdbNameInfo, occ: seq<Occurrence>, xs: seq<Item>, ys: seq<Item>)
    requires RecordsVersions(m, source, occ) && m.history != []
    requires Agree(m.history, Timeline(source, occ), xs, ys) && NoReturn(ys)
    ensures NoReturn(xs)
  {
    var places := Places(m.history, Versions(source, occ));
    forall i: nat | i < |xs| ensures xs[i] == ys[places[i]] { RecordOfVersion(m, source, occ, i); }
    forall i: nat, j: nat | i < j < |xs| ensures places[i] <= places[j] { InForceInOrder(m, source, occ, i, j); }
    NoReturnAlong(xs, ys, places);
  }

  lemma RecordsFollowTimeline(
      m: MemberVariable, source: PdbNameInfo, occ: seq<Occurrence>, xs: seq<Item>, ys: seq<Item>)
    requires RecordsVersions(m, source, occ) && m.history != []
    requires Agree(m.history, Timeline(source, occ), xs, ys) && NoReturn(xs)
    ensures NoReturn(ys)
  {
    var h := m.history;
    var maps := (p: nat, i: nat) => MadeThere(h, source, occ, p, i);
    forall p: nat | p < |ys| ensures HasImage(maps, p) {
      var i := VersionOfRecord(m, source, occ, p);
      assert maps(p, i);
    }
    forall p: nat, q: nat, i: nat, j: nat | p < q && maps(p, i) && maps(q, j) ensures i <= j {
      VersionIndices(source, occ, i, j);
    }
    NoReturnTransfers(ys, xs, maps);
  }

  lemma ItemsAgree(m: MemberVariable, source: PdbNameInfo, occ: seq<Occurrence>)
    requires RecordsVersions(m, source, occ) && m.history != []
    ensures var types := Timeline(source, occ); Agree(m.history, types, TypeItems(types), RecordItems(m.history))
  {
    var h, types := m.history, Timeline(source, occ);
    forall i, p | 0 <= i < |types| && 0 <= p < |h| && types[i] == h[p].versioned.typeName
      ensures TypeItems(types)[i] == RecordItems(h)[p]
    {
      SameItem(m, source, occ, i, p);
    }
  }

  lemma RecordKeptIff(m: MemberVariable, source: PdbNameInfo, occ: seq<Occurrence>, n: nat)
    requires RecordsVersions(m, source, occ) && n < |occ|
    ensures RecordKept(m, occ[n]) <==> !GivesWay(TypeAt(occ, occ[n].info.baseVersion), Timeline(source, occ))
  {
    OccurrenceType(m, source, occ, n);
    if m.history == [] {
      UnchangedTimeline(m, source, occ);
      var t := m.typeName;
      if StartsWith(t, OBJECT_PTR_OPEN) { UnifyKeepsObjectPtr(t); }
    } else {
      GivesWayIffSkipped(m, source, occ, InForce(m.history, occ[n].info.baseVersion));
    }
  }

  lemma UnchangedTimeline(m: MemberVariable, source: PdbNameInfo, occ: seq<Occurrence>)
    requires RecordsVersions(m, source, occ) && m.history == []
    ensures forall t <- Timeline(source, occ) :: t == m.typeName
  {
    var types := Timeline(source, occ);
    forall i | 0 <= i < |types| ensures types[i] == m.typeName {
      VersionsAscendAtMost(source, occ, 0, i);
      assert RecordedType(m, Versions(source, occ)[i]) == types[i];
    }
  }

  predicate RightEverywhere(m: MemberVariable, occ: seq<Occurrence>, types: seq<string>)
    requires occ != []
  {
    forall o <- occ :: !GivesWay(TypeAt(occ, o.info.baseVersion), types) ==> RightAtVersion(m, occ, o)
  }

  lemma SameGuards(m: MemberVariable, source: PdbNameInfo, occ: seq<Occurrence>)
    requires RecordsVersions(m, source, occ)
    ensures RightEverywhere(m, occ, Timeline(source, occ))
       <==> forall o <- occ :: RecordKept(m, o) ==> RightAtVersion(m, occ, o)
  {
    forall o <- occ
      ensures RecordKept(m, o) <==> !GivesWay(TypeAt(occ, o.info.baseVersion), Timeline(source, occ))
    {
      var n :| 0 <= n < |occ| && occ[n] == o;
      RecordKeptIff(m, source, occ, n);
    }
  }

  lemma ContiguousIffNoFormReturns(m: MemberVariable, source: PdbNameInfo, occ: seq<Occurrence>)
    requires RecordsVersions(m, source, occ)
    ensures Contiguous(Kept(m.history, m.history)) <==> NoFormReturns(Timeline(source, occ))
  {
    if m.history == [] {
      UnchangedTimeline(m, source, occ);
      OneTypeNeverReturns(Timeline(source, occ), m.typeName);
      assert Kept(m.history, m.history) == [];
    } else {
      var xs, ys := TypeItems(Timeline(source, occ)), RecordItems(m.history);
      ContiguousIffNoRecordReturns(m.history);
      ItemsAgree(m, source, occ);
      if NoReturn(ys) { TimelineFollowsRecords(m, source, occ, xs, ys); }
      if NoReturn(xs) { RecordsFollowTimeline(m, source, occ, xs, ys); }
    }
  }

  lemma OneTypeNeverReturns(types: seq<string>, typeName: string)
    requires forall t <- types :: t == typeName
    ensures NoFormReturns(types)
  {
    var items := TypeItems(types);
    forall i | 0 <= i < |items| ensures items[i].form == Form(typeName) { assert types[i] in types; }
  }

  /** The getters of a faithfully recorded member are right at every version whose
      type does not give way, exactly when no normal form returns. */
  lemma GettersRightIff(m: MemberVariable, source: PdbNameInfo, occ: seq<Occurrence>)
    requires RecordsVersions(m, source, occ)
    ensures RightEverywhere(m, occ, Timeline(source, occ)) <==> NoFormReturns(Timeline(source, occ))
  {
    RightByHistoryIff(m, source, occ);
    SameGuards(m, source, occ);
    ContiguousIffNoFormReturns(m, source, occ);
  }

  // ----- from the joins -----

  /** PDBs named by convention, in ascending order; variants of one version may
      follow each other. */
  predicate CanonicalRuns(runs: seq<Run>) {
    && (forall r <- runs :: Canonical(r.info))
    && forall i, j :: 0 <= i < j < |runs| ==>
         !Earlier(runs[j].info.major, runs[j].info.minor, runs[i].info.major, runs[i].info.minor)
  }

  lemma CanonicalRunsAscend(runs: seq<Run>)
    requires CanonicalRuns(runs)
    ensures Ascending(runs) && VersionOrdered(runs)
  {
    forall i, j | 0 <= i < j < |runs| ensures AtMost(runs[i].info.baseVersion, runs[j].info.baseVersion) {
      CanonicalOrder(runs[j].info, runs[i].info);
    }
  }

  lemma OccurrencesAreCanonical(runs: seq<Run>, k: string, name: string)
    requires CanonicalRuns(runs) && Occurrences(runs, k, name) != []
    ensures var occ := Occurrences(runs, k, name);
      && runs != [] && Canonical(runs[0].info) && (forall o <- occ :: Canonical(o.info))
      && OccAscend(occ) && AtMost(runs[0].info.baseVersion, occ[0].info.baseVersion)
  {
    CanonicalRunsAscend(runs);
    OccurrencesAscend(runs, k, name);
    FirstAtSource(runs, k, name);
    forall o <- Occurrences(runs, k, name) ensures Canonical(o.info) {
      var i :| 0 <= i < |runs| && runs[i].info == o.info;
    }
  }

  /** End to end. Join any PDBs in ascending order, variants of one version
      included, and plan the getters of a member that is no bitfield in the last
      of them. At every version that has the member, unless its type there is a
      raw pointer that gives way, the getter in force has that type's normal form:
      exactly when, among the types joined, no normal form comes back after
      another has replaced it. */
  lemma {:induction false} GettersFollowTheVersions(runs: seq<Run>, keys: set<string>, k: string, name: string)
    requires AreRuns(runs, keys) && CanonicalRuns(runs)
    requires LastMember(runs, k, name).Some? && !LastMember(runs, k, name).value.bits.isBitfield
    ensures var m, occ := Member(JoinedRuns(runs, keys).table, k, name), Occurrences(runs, k, name);
      && m.Some? && occ != []
      && var types := Timeline(runs[0].info, occ); RightEverywhere(m.value, occ, types) <==> NoFormReturns(types)
  {
    CanonicalRunsAscend(runs);
    HistoryIsLossless(runs, keys, k, name);
    NewestWins(runs, keys, k, name);
    OccurrencesAreCanonical(runs, k, name);
    GettersRightIff(Member(JoinedRuns(runs, keys).table, k, name).value, runs[0].info, Occurrences(runs, k, name));
  }

  // ----- distinct versions -----

  function TypesOf(occ: seq<Occurrence>): (types: seq<string>)
    ensures |types| == |occ| && forall i :: 0 <= i < |occ| ==> types[i] == occ[i].typeName
  {
    seq(|occ|, i requires 0 <= i < |occ| => occ[i].typeName)
  }

  lemma {:induction false} TypeAtStart(occ: seq<Occurrence>, v: string)
    requires occ != [] && OccStrict(occ) && AtMost(v, occ[0].info.baseVersion)
    ensures TypeAt(occ, v) == occ[0].typeName
  {
    var n := |occ| - 1;
    if n > 0 {
      var first, last := occ[0].info.baseVersion, occ[n].info.baseVersion;
      LessTotal(v, first);
      LessTotal(v, last);
      if v != first { LessTransitive(v, first, last); }
      TypeAtStart(occ[..n], v);
    }
  }

  /** With distinct versions the timeline is the types in order, the first twice. */
  lemma StrictTimeline(source: PdbNameInfo, occ: seq<Occurrence>)
    requires occ != [] && OccStrict(occ) && AtMost(source.baseVersion, occ[0].info.baseVersion)
    ensures Timeline(source, occ) == [occ[0].typeName] + TypesOf(occ)
  {
    TypeAtStart(occ, source.baseVersion);
    forall i | 0 <= i < |occ| ensures Timeline(source, occ)[i + 1] == occ[i].typeName { TypeAtOwnVersion(occ, i); }
  }

  lemma SameGivesWay(types: seq<string>, typeName: string)
    requires types != []
    ensures GivesWay(typeName, [types[0]] + types) <==> GivesWay(typeName, types)
  {
    assert forall t :: t in [types[0]] + types <==> t in types;
  }

  lemma FirstTwice(types: seq<string>)
    requires types != []
    ensures forall t: string :: GivesWay(t, [types[0]] + types) <==> GivesWay(t, types)
    ensures NoFormReturns([types[0]] + types) <==> NoFormReturns(types)
  {
    forall t: string ensures GivesWay(t, [types[0]] + types) <==> GivesWay(t, types) { SameGivesWay(types, t); }
    ItemsTwice(types);
    ItemTwice(TypeItems(types));
  }

  lemma ItemsTwice(types: seq<string>)
    requires types != []
    ensures TypeItems([types[0]] + types) == [TypeItems(types)[0]] + TypeItems(types)
  {
    var twice := [types[0]] + types;
    forall t: string ensures Judge(twice)(t) == Judge(types)(t) { SameGivesWay(types, t); }
    JudgedTwice(types, Judge(twice), Judge(types));
  }

  lemma JudgedTwice(types: seq<string>, f: string -> Item, g: string -> Item)
    requires types != [] && forall t: string :: f(t) == g(t)
    ensures Judged([types[0]] + types, f) == [Judged(types, g)[0]] + Judged(types, g)
  {}

  lemma ItemTwice(items: seq<Item>)
    requires items != []
    ensures NoReturn([items[0]] + items) <==> NoReturn(items)
  {
    var twice := [items[0]] + items;
    var back := (i: nat, p: nat) => i < |twice| && p == (if i == 0 then 0 else i - 1);
    var there := (i: nat, p: nat) => i < |items| && p == i + 1;
    if NoReturn(items) {
      forall i: nat | i < |twice| ensures HasImage(back, i) { assert back(i, if i == 0 then 0 else i - 1); }
      NoReturnTransfers(twice, items, back);
    }
    if NoReturn(twice) {
      forall i: nat | i < |items| ensures HasImage(there, i) { assert there(i, i + 1); }
      NoReturnTransfers(items, twice, there);
    }
  }

  predicate RightForAll(m: MemberVariable, occ: seq<Occurrence>) {
    forall o <- occ :: !GivesWay(o.typeName, TypesOf(occ)) ==> GetterRight(m, o.info, o.typeName)
  }

  /** With distinct versions every type is its version's, so the theorem speaks of
      the joined types alone. */
  lemma {:induction false} GettersFollowDistinctVersions(runs: seq<Run>, keys: set<string>, k: string, name: string)
    requires AreRuns(runs, keys) && CanonicalRuns(runs) && StrictlyAscending(runs)
    requires LastMember(runs, k, name).Some? && !LastMember(runs, k, name).value.bits.isBitfield
    ensures var m, occ := Member(JoinedRuns(runs, keys).table, k, name), Occurrences(runs, k, name);
      m.Some? && (RightForAll(m.value, occ) <==> NoFormReturns(TypesOf(occ)))
  {
    var m, occ := Member(JoinedRuns(runs, keys).table, k, name), Occurrences(runs, k, name);
    GettersFollowTheVersions(runs, keys, k, name);
    OccurrencesAreCanonical(runs, k, name);
    OccurrencesStrict(runs, k, name);
    StrictTimeline(runs[0].info, occ);
    FirstTwice(TypesOf(occ));
    RightForAllIff(m.value, occ, Timeline(runs[0].info, occ));
  }

  lemma RightForAllIff(m: MemberVariable, occ: seq<Occurrence>, types: seq<string>)
    requires occ != [] && OccStrict(occ) && forall t: string :: GivesWay(t, types) <==> GivesWay(t, TypesOf(occ))
    ensures RightEverywhere(m, occ, types) <==> RightForAll(m, occ)
  {
    forall o <- occ ensures TypeAt(occ, o.info.baseVersion) == o.typeName {
      var i :| 0 <= i < |occ| && occ[i] == o;
      TypeAtOwnVersion(occ, i);
    }
  }
}
