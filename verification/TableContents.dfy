/** What a joined table holds besides the types: which classes are dumped for what,
    names, sizes, offsets, and what exactly a record of the history says. */
module TableContents {
  import opened Text
  import opened VersionKeys
  import opened TypeContainer
  import opened TypeHistory

  // ----- the names of the object array -----

  /** The three names, in the order they are looked for. */
  const ARRAY_NAMES: seq<string> := [
    "FFixedUObjectArray", "FChunkedFixedUObjectArray",
    "TStatic" + "IndirectArrayThreadSafeRead<UObjectBase,8388608,16384>"]

  predicate Occurs(s: string, pat: string) { exists i :: 0 <= i <= |s| && StartsWith(s[i..], pat) }

  /** `s` is `pre`, the first occurrence of `pat`, and `post`. */
  predicate FirstOccursAfter(s: string, pre: string, pat: string, post: string) {
    s == pre + pat + post && forall i :: 0 <= i < |pre| ==> !StartsWith(s[i..], pat)
  }

  lemma FindsFirst(s: string, pre: string, pat: string, post: string)
    requires FirstOccursAfter(s, pre, pat, post)
    ensures FindFrom(s, pat, 0) == Some(|pre|)
    ensures ReplaceFirst(s, pat, "TUObjectArray") == pre + "TUObjectArray" + post
  {
    assert s[|pre|..][..|pat|] == pat;
    assert s[|pre| + |pat|..] == post;
  }

  lemma FindsNone(s: string, pat: string)
    requires !Occurs(s, pat)
    ensures FindFrom(s, pat, 0) == None
  {}

  lemma ArrayNamesAre()
    ensures ARRAY_NAMES == [FIXED_ARRAY, CHUNKED_ARRAY, STATIC_ARRAY]
  {}

  /** The first occurrence of the first array name that occurs becomes
      `TUObjectArray`, so members of all three array types have one type. */
  lemma ArrayNamesUnify(s: string, n: nat, pre: string, post: string)
    requires n < |ARRAY_NAMES| && FirstOccursAfter(s, pre, ARRAY_NAMES[n], post)
    requires forall j :: 0 <= j < n ==> !Occurs(s, ARRAY_NAMES[j])
    ensures Unify(s) == pre + "TUObjectArray" + post
  {
    ArrayNamesAre();
    FindsFirst(s, pre, ARRAY_NAMES[n], post);
    forall j | 0 <= j < n ensures FindFrom(s, ARRAY_NAMES[j], 0) == None { FindsNone(s, ARRAY_NAMES[j]); }
    assert n > 0 ==> FindFrom(s, ARRAY_NAMES[0], 0) == None;
    assert n > 1 ==> FindFrom(s, ARRAY_NAMES[1], 0) == None;
  }

  lemma OtherNamesStay(s: string)
    requires forall a <- ARRAY_NAMES :: !Occurs(s, a)
    ensures Unify(s) == s
  {
    ArrayNamesAre();
    FindsNone(s, ARRAY_NAMES[0]);
    FindsNone(s, ARRAY_NAMES[1]);
    FindsNone(s, ARRAY_NAMES[2]);
  }

  // ----- classes -----

  /** Whether the class is dumped for its vtable, and whether for its members. */
  function ValidityAt(t: Table, k: string): Option<(bool, bool)> {
    if k in t then Some((t[k].validForVTable, t[k].validForMemberVars)) else None
  }

  /** Its name and its clean name. */
  function NamesAt(t: Table, k: string): Option<(string, string)> {
    if k in t then Some((t[k].className, t[k].classNameClean)) else None
  }

  /** A join takes the flags of every class it merges over, and keeps its names;
      a new class gets its unified name. Both joins do. */
  lemma {:induction false} JoinTableClass(
      t: Table, other: Table, order: seq<string>, mode: Mode, keys: set<string>, k: string)
    requires t.Keys <= keys && WellKeyed(other, keys)
    requires forall c <- order :: c in other
    ensures JoinedTable(t, other, order, mode).Keys <= keys
    ensures ValidityAt(JoinedTable(t, other, order, mode), k)
         == if k in order then ValidityAt(other, k) else ValidityAt(t, k)
    ensures NamesAt(JoinedTable(t, other, order, mode), k)
         == if k in t then NamesAt(t, k) else if k in order then Some((Unify(other[k].className), k)) else None
  {
    if order != [] {
      var n := |order| - 1;
      JoinTableClass(t, other, order[..n], mode, keys, k);
      assert Target(JoinedTable(t, other, order[..n], mode), other[order[n]]) == order[n];
      InOrder(order, k);
    }
  }

  /** The table after the same PDBs were joined by the plain join. */
  ghost function PlainTable(runs: seq<Run>, keys: set<string>): Table
    requires AreRuns(runs, keys)
  {
    if runs == [] then map[]
    else
      assert runs[|runs| - 1] in runs;
      JoinedTable(PlainTable(runs[..|runs| - 1], keys), runs[|runs| - 1].table, runs[|runs| - 1].order, Plain)
  }

  function LastValidity(runs: seq<Run>, k: string): Option<(bool, bool)> {
    if runs == [] then None
    else if k in runs[|runs| - 1].table then ValidityAt(runs[|runs| - 1].table, k)
    else LastValidity(runs[..|runs| - 1], k)
  }

  /** The unified name in the first PDB that has the class. */
  function FirstNames(runs: seq<Run>, k: string): Option<(string, string)> {
    if runs == [] then None
    else if k in runs[0].table then Some((Unify(runs[0].table[k].className), k))
    else FirstNames(runs[1..], k)
  }

  lemma {:induction false} FirstNamesStep(runs: seq<Run>, run: Run, k: string)
    ensures FirstNames(runs + [run], k)
         == if FirstNames(runs, k).Some? then FirstNames(runs, k) else FirstNames([run], k)
  {
    if runs == [] {
      assert runs + [run] == [run];
    } else {
      assert (runs + [run])[1..] == runs[1..] + [run];
      FirstNamesStep(runs[1..], run, k);
    }
  }

  lemma PlainKeys(runs: seq<Run>, keys: set<string>)
    requires AreRuns(runs, keys)
    ensures PlainTable(runs, keys).Keys <= keys
  {
    if runs != [] {
      var run := runs[|runs| - 1];
      assert IsRun(run, keys);
      PlainKeys(runs[..|runs| - 1], keys);
      JoinTableClass(PlainTable(runs[..|runs| - 1], keys), run.table, run.order, Plain, keys, "");
    }
  }

  /** After any joins, versioned or plain, a class is dumped for what the last PDB
      that has it says, and has the names the first one gave it. */
  lemma {:induction false} LastValidityWins(runs: seq<Run>, keys: set<string>, k: string)
    requires AreRuns(runs, keys)
    ensures ValidityAt(JoinedRuns(runs, keys).table, k) == LastValidity(runs, k)
    ensures ValidityAt(PlainTable(runs, keys), k) == LastValidity(runs, k)
    ensures NamesAt(JoinedRuns(runs, keys).table, k) == NamesAt(PlainTable(runs, keys), k) == FirstNames(runs, k)
  {
    if runs != [] {
      var n := |runs| - 1;
      var run, before, plain := runs[n], JoinedRuns(runs[..n], keys), PlainTable(runs[..n], keys);
      assert IsRun(run, keys);
      assert runs == runs[..n] + [run];
      LastValidityWins(runs[..n], keys, k);
      JoinRunsKeys(runs[..n], keys);
      PlainKeys(runs[..n], keys);
      JoinTableClass(before.table, run.table, run.order, Versioned(before.source, run.info), keys, k);
      JoinTableClass(plain, run.table, run.order, Plain, keys, k);
      FirstNamesStep(runs[..n], run, k);
    }
  }

  /** The plain join keeps no history: after any plain joins every member, and
      every virtual function, is just as the last PDB that has it declares it. */
  lemma {:induction false} PlainJoinsOverwrite(runs: seq<Run>, keys: set<string>, k: string, name: string, slot: nat)
    requires AreRuns(runs, keys)
    ensures Member(PlainTable(runs, keys), k, name) == LastMember(runs, k, name)
    ensures FunctionAt(PlainTable(runs, keys), k, slot) == LastFunction(runs, k, slot)
  {
    if runs != [] {
      var n := |runs| - 1;
      var run, plain := runs[n], PlainTable(runs[..n], keys);
      assert IsRun(run, keys);
      PlainJoinsOverwrite(runs[..n], keys, k, name, slot);
      PlainKeys(runs[..n], keys);
      JoinTableMember(plain, run.table, run.order, Plain, keys, k, name);
      JoinTableFunction(plain, run.table, run.order, Plain, keys, k, slot);
    }
  }

  // ----- the source -----

  /** The first of the earliest PDBs. */
  predicate IsEarliest(runs: seq<Run>, i: nat) {
    && i < |runs|
    && (forall j :: 0 <= j < i ==>
         Earlier(runs[i].info.major, runs[i].info.minor, runs[j].info.major, runs[j].info.minor))
    && (forall j :: i < j < |runs| ==>
         !Earlier(runs[j].info.major, runs[j].info.minor, runs[i].info.major, runs[i].info.minor))
  }

  /** In whatever order PDBs are joined, the source is the earliest of them. */
  lemma {:induction false} SourceIsEarliest(runs: seq<Run>, keys: set<string>) returns (i: nat)
    requires AreRuns(runs, keys) && runs != []
    ensures IsEarliest(runs, i) && JoinedRuns(runs, keys).source == Some(runs[i].info)
  {
    var n := |runs| - 1;
    if n == 0 {
      i := 0;
    } else {
      i := SourceIsEarliest(runs[..n], keys);
      var last, first := runs[n].info, runs[i].info;
      if Earlier(last.major, last.minor, first.major, first.minor) {
        forall j | 0 <= j < n
          ensures Earlier(last.major, last.minor, runs[j].info.major, runs[j].info.minor)
        {
          assert runs[..n][j] == runs[j];
        }
        i := n;
      }
    }
  }

  // ----- members -----

  /** The member as the joined PDBs declare it, one after another. */
  function Members(runs: seq<Run>, k: string, name: string): seq<MemberVariable> {
    if runs == [] then []
    else
      var before := Members(runs[..|runs| - 1], k, name);
      match Member(runs[|runs| - 1].table, k, name) { case Some(v) => before + [v] case None => before }
  }

  /** The last declaration whose type the one before has too, or the first. */
  predicate KeptTypeLast(vs: seq<MemberVariable>, i: nat) {
    && i < |vs| && (i > 0 ==> vs[i - 1].typeName == vs[i].typeName)
    && forall j :: i < j < |vs| ==> vs[j - 1].typeName != vs[j].typeName
  }

  /** The last declaration whose type the one before has not, or the first. */
  predicate ChangedTypeLast(vs: seq<MemberVariable>, i: nat) {
    && i < |vs| && (i > 0 ==> vs[i - 1].typeName != vs[i].typeName)
    && forall j :: i < j < |vs| ==> vs[j - 1].typeName == vs[j].typeName
  }

  lemma KeepsPlace(vs: seq<MemberVariable>, v: MemberVariable, i: nat)
    requires vs != []
    ensures KeptTypeLast(vs, i) && vs[|vs| - 1].typeName != v.typeName ==> KeptTypeLast(vs + [v], i)
    ensures ChangedTypeLast(vs, i) && vs[|vs| - 1].typeName == v.typeName ==> ChangedTypeLast(vs + [v], i)
  {}

  /** Offsets are those of the last declaration that did not change the type, and
      sizes those of the last one that did: the versioned join updates one or the
      other. */
  lemma {:induction false} OffsetAndSize(runs: seq<Run>, keys: set<string>, k: string, name: string)
    returns (kept: nat, changed: nat)
    requires AreRuns(runs, keys) && Members(runs, k, name) != []
    ensures KeptTypeLast(Members(runs, k, name), kept) && ChangedTypeLast(Members(runs, k, name), changed)
    ensures var m, vs := Member(JoinedRuns(runs, keys).table, k, name), Members(runs, k, name);
      m.Some? && m.value.offset == vs[kept].offset && m.value.size == vs[changed].size
        && m.value.typeName == vs[|vs| - 1].typeName && m.value.bits == vs[|vs| - 1].bits
  {
    var n := |runs| - 1;
    var vs := Members(runs[..n], k, name);
    MemberStep(runs, keys, k, name);
    NewestWins(runs[..n], keys, k, name);
    MembersExist(runs[..n], k, name);
    if vs == [] {
      kept, changed := 0, 0;
    } else {
      kept, changed := OffsetAndSize(runs[..n], keys, k, name);
      var v := Member(runs[n].table, k, name);
      if v.Some? {
        KeepsPlace(vs, v.value, kept);
        KeepsPlace(vs, v.value, changed);
        if vs[|vs| - 1].typeName == v.value.typeName { kept := |vs|; } else { changed := |vs|; }
      }
    }
  }

  /** One merge takes over the new offset exactly when the type stays, and the new
      size exactly when it changes, unless they are the same anyway. */
  lemma MergeTakesOffsetIff(e: MemberVariable, v: MemberVariable, source: Option<PdbNameInfo>, info: PdbNameInfo)
    ensures var m := MergedVariable(e, v, Versioned(source, info));
      && (m.offset == v.offset <==> e.typeName == v.typeName || e.offset == v.offset)
      && (m.size == v.size <==> e.typeName != v.typeName || e.size == v.size)
  {}

  lemma {:induction false} MembersExist(runs: seq<Run>, k: string, name: string)
    ensures Members(runs, k, name) == [] <==> LastMember(runs, k, name).None?
  {
    if runs != [] { MembersExist(runs[..|runs| - 1], k, name); }
  }

  // ----- records -----

  /** The record says what `v` was in the PDB `info`. */
  predicate IsSnapshot(r: Record, v: MemberVariable, info: PdbNameInfo) {
    && r.key == info.baseVersion && r.versioned.major == info.major && r.versioned.minor == info.minor
    && r.versioned.typeName == v.typeName && r.versioned.size == v.size && r.versioned.bits == v.bits
  }

  /** It is what some joined PDB declares. */
  predicate RecordsRun(r: Record, runs: seq<Run>, k: string, name: string) {
    exists i: nat :: i < |runs| && Member(runs[i].table, k, name).Some?
      && IsSnapshot(r, Member(runs[i].table, k, name).value, runs[i].info)
  }

  /** It is what the table said before some join, when it had no record yet, under
      the source of that time. */
  ghost predicate RecordsSource(r: Record, runs: seq<Run>, keys: set<string>, k: string, name: string)
    requires AreRuns(runs, keys)
  {
    exists n: nat :: n < |runs| && StartsHistory(r, runs[..n], keys, k, name)
  }

  ghost predicate StartsHistory(r: Record, runs: seq<Run>, keys: set<string>, k: string, name: string)
    requires AreRuns(runs, keys)
  {
    var s := JoinedRuns(runs, keys);
    var m := Member(s.table, k, name);
    s.source.Some? && m.Some? && m.value.history == [] && IsSnapshot(r, m.value, s.source.value)
  }

  lemma {:induction false} PutAdds(h: History, key: string, v: VersionedType)
    ensures forall r <- Put(h, key, v) :: r == Record(key, v) || r in h
  {
    if h != [] && !Less(key, h[0].key) && h[0].key != key { PutAdds(h[1..], key, v); }
  }

  lemma RunsOneMore(r: Record, runs: seq<Run>, keys: set<string>, k: string, name: string)
    requires AreRuns(runs, keys) && runs != []
    ensures var front := runs[..|runs| - 1];
      && (RecordsRun(r, front, k, name) ==> RecordsRun(r, runs, k, name))
      && (RecordsSource(r, front, keys, k, name) ==> RecordsSource(r, runs, keys, k, name))
  {
    var front := runs[..|runs| - 1];
    if RecordsRun(r, front, k, name) {
      var i: nat :| i < |front| && Member(front[i].table, k, name).Some?
        && IsSnapshot(r, Member(front[i].table, k, name).value, front[i].info);
      assert runs[i] == front[i];
    }
    if RecordsSource(r, front, keys, k, name) {
      var n: nat :| n < |front| && StartsHistory(r, front[..n], keys, k, name);
      assert runs[..n] == front[..n];
    }
  }

  /** Every record of the history is a snapshot: of the member in a joined PDB, or
      of the table before its first change, under the source. */
  lemma {:induction false} RecordsAreSnapshots(runs: seq<Run>, keys: set<string>, k: string, name: string)
    requires AreRuns(runs, keys)
    ensures var m := Member(JoinedRuns(runs, keys).table, k, name);
      m.Some? ==> forall r <- m.value.history :: RecordsRun(r, runs, k, name) || RecordsSource(r, runs, keys, k, name)
  {
    if runs != [] {
      var n := |runs| - 1;
      var before, run := JoinedRuns(runs[..n], keys), runs[n];
      var e, v := Member(before.table, k, name), Member(run.table, k, name);
      RecordsAreSnapshots(runs[..n], keys, k, name);
      MemberStep(runs, keys, k, name);
      if e.Some? {
        forall r <- e.value.history ensures RecordsRun(r, runs, k, name) || RecordsSource(r, runs, keys, k, name) {
          RunsOneMore(r, runs, keys, k, name);
        }
      }
      if e.Some? && v.Some? && e.value.typeName != v.value.typeName {
        var h := StartedHistory(e.value, before.source);
        MergedHistory(e.value, v.value, before.source, run.info);
        PutAdds(h, run.info.baseVersion, Snapshot(v.value, run.info));
        var made := Record(run.info.baseVersion, Snapshot(v.value, run.info));
        assert IsSnapshot(made, v.value, run.info) && RecordsRun(made, runs, k, name);
        forall r <- h ensures RecordsRun(r, runs, k, name) || RecordsSource(r, runs, keys, k, name) {
          if r !in e.value.history { assert StartsHistory(r, runs[..n], keys, k, name); }
        }
      }
    }
  }
}
