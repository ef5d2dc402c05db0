/** What the merged table says about each member after any run of versioned joins. */
module TypeHistory {
  import opened Text
  import opened VersionKeys
  import opened TypeContainer

  // ----- runs of joins -----

  /** One versioned join: the PDB it came from, its classes, and the order in
      which the hash map happened to yield them. */
  datatype Run = Run(info: PdbNameInfo, table: Table, order: seq<string>)

  datatype Shared = Shared(table: Table, source: Option<PdbNameInfo>)

  predicate KeyedAt(c: ClassEntry, k: string, keys: set<string>) {
    c.classNameClean == k && (Unify(c.className) == k || Unify(c.className) !in keys)
  }

  /** Every class is stored under its clean name, which is where a merge looks:
      its unified name is that name, or no class of the whole run has it. */
  predicate WellKeyed(t: Table, keys: set<string>) {
    forall k <- t :: k in keys && KeyedAt(t[k], k, keys)
  }

  predicate DistinctNames(vars: seq<MemberVariable>) {
    forall i, j :: 0 <= i < j < |vars| ==> vars[i].name != vars[j].name
  }

  /** A freshly dumped class: members named once, no history yet. */
  predicate FreshVariables(vars: seq<MemberVariable>) {
    DistinctNames(vars) && forall v <- vars :: v.history == []
  }

  ghost predicate IsRun(run: Run, keys: set<string>) {
    && IsOrder(run.order, run.table)
    && WellKeyed(run.table, keys)
    && forall k <- run.table :: FreshVariables(run.table[k].variables)
  }

  ghost predicate AreRuns(runs: seq<Run>, keys: set<string>) {
    forall r <- runs :: IsRun(r, keys)
  }

  ghost function JoinedRun(s: Shared, run: Run): Shared
    requires forall k <- run.order :: k in run.table
  {
    Shared(JoinedTable(s.table, run.table, run.order, Versioned(s.source, run.info)),
           EarliestSource(s.source, run.info))
  }

  ghost function JoinedRuns(runs: seq<Run>, keys: set<string>): Shared
    requires AreRuns(runs, keys)
  {
    if runs == [] then Shared(map[], None)
    else
      assert runs[|runs| - 1] in runs;
      JoinedRun(JoinedRuns(runs[..|runs| - 1], keys), runs[|runs| - 1])
  }

  // ----- one member of the table -----

  function Named(vars: seq<MemberVariable>, name: string): Option<MemberVariable> {
    match MemberIndex(vars, name) { case Some(i) => Some(vars[i]) case None => None }
  }

  function Member(t: Table, k: string, name: string): Option<MemberVariable> {
    if k in t then Named(t[k].variables, name) else None
  }

  function MergedMember(e: Option<MemberVariable>, v: Option<MemberVariable>, mode: Mode): Option<MemberVariable> {
    if v.None? then e else if e.None? then v else Some(MergedVariable(e.value, v.value, mode))
  }

  lemma {:induction false} IndexOfFirst(vars: seq<MemberVariable>, name: string, i: nat)
    requires i < |vars| && vars[i].name == name
    requires forall j :: 0 <= j < i ==> vars[j].name != name
    ensures MemberIndex(vars, name) == Some(i)
  {
  }

  lemma IndexOfNone(vars: seq<MemberVariable>, name: string)
    requires forall i :: 0 <= i < |vars| ==> vars[i].name != name
    ensures MemberIndex(vars, name) == None
  {
  }

  lemma MergeKeepsName(e: MemberVariable, v: MemberVariable, mode: Mode)
    requires e.name == v.name
    ensures MergedVariable(e, v, mode).name == e.name
  {}

  /** Merging one member touches the members of that name only. */
  lemma JoinOneVariable(vars: seq<MemberVariable>, v: MemberVariable, mode: Mode, name: string)
    ensures Named(JoinedVariable(vars, v, mode), name)
         == if name == v.name then MergedMember(Named(vars, name), Some(v), mode) else Named(vars, name)
  {
    var joined := JoinedVariable(vars, v, mode);
    var at := MemberIndex(vars, v.name);
    if at.Some? { MergeKeepsName(vars[at.value], v, mode); }
    if name == v.name {
      IndexOfFirst(joined, name, if at.Some? then at.value else |vars|);
    } else {
      var r := MemberIndex(vars, name);
      if r.Some? {
        IndexOfFirst(joined, name, r.value);
      } else {
        IndexOfNone(joined, name);
      }
    }
  }

  lemma {:induction false} JoinManyVariables(
      vars: seq<MemberVariable>, incoming: seq<MemberVariable>, mode: Mode, name: string)
    requires DistinctNames(incoming)
    ensures Named(JoinedVariables(vars, incoming, mode), name)
         == MergedMember(Named(vars, name), Named(incoming, name), mode)
  {
    if incoming != [] {
      var n := |incoming| - 1;
      var v := incoming[n];
      JoinManyVariables(vars, incoming[..n], mode, name);
      JoinOneVariable(JoinedVariables(vars, incoming[..n], mode), v, mode, name);
      var r := MemberIndex(incoming[..n], name);
      if r.Some? {
        IndexOfFirst(incoming, name, r.value);
      } else if v.name == name {
        IndexOfFirst(incoming, name, n);
      } else {
        forall i | 0 <= i < |incoming| ensures incoming[i].name != name {
          assert i < n ==> incoming[i] == incoming[..n][i];
        }
        IndexOfNone(incoming, name);
      }
    }
  }

  /** Joining a table merges each of its classes once, wherever the hash map puts it. */
  lemma {:induction false} JoinTableMember(
      t: Table, other: Table, order: seq<string>, mode: Mode, keys: set<string>, k: string, name: string)
    requires t.Keys <= keys && WellKeyed(other, keys)
    requires forall c <- order :: c in other
    requires forall i, j :: 0 <= i < j < |order| ==> order[i] != order[j]
    requires forall c <- other :: DistinctNames(other[c].variables)
    ensures JoinedTable(t, other, order, mode).Keys <= keys
    ensures Member(JoinedTable(t, other, order, mode), k, name)
         == if k in order then MergedMember(Member(t, k, name), Member(other, k, name), mode) else Member(t, k, name)
  {
    if order != [] {
      var n := |order| - 1;
      var before := JoinedTable(t, other, order[..n], mode);
      JoinTableMember(t, other, order[..n], mode, keys, k, name);
      var c := other[order[n]];
      assert Target(before, c) == order[n];
      if k == order[n] {
        assert k !in order[..n];
        JoinManyVariables(EntryFor(before, c).variables, c.variables, mode, name);
      }
    }
  }

  lemma JoinRunMember(s: Shared, run: Run, keys: set<string>, k: string, name: string)
    requires s.table.Keys <= keys && IsRun(run, keys)
    ensures JoinedRun(s, run).table.Keys <= keys
    ensures Member(JoinedRun(s, run).table, k, name)
         == MergedMember(Member(s.table, k, name), Member(run.table, k, name), Versioned(s.source, run.info))
  {
    JoinTableMember(s.table, run.table, run.order, Versioned(s.source, run.info), keys, k, name);
  }

  lemma {:induction false} JoinRunsKeys(runs: seq<Run>, keys: set<string>)
    requires AreRuns(runs, keys)
    ensures JoinedRuns(runs, keys).table.Keys <= keys
  {
    if runs != [] {
      JoinRunsKeys(runs[..|runs| - 1], keys);
      JoinRunMember(JoinedRuns(runs[..|runs| - 1], keys), runs[|runs| - 1], keys, "", "");
    }
  }

  // ----- virtual functions -----

  function FunctionAt(t: Table, k: string, slot: nat): Option<string> {
    if k in t && slot in t[k].functions then Some(t[k].functions[slot]) else None
  }

  lemma JoinClassFunction(t: Table, c: ClassEntry, mode: Mode, k: string, slot: nat)
    ensures JoinedClass(t, c, mode).Keys == t.Keys + {Target(t, c)}
    ensures FunctionAt(JoinedClass(t, c, mode), k, slot)
         == if k == Target(t, c) && slot in c.functions then Some(c.functions[slot]) else FunctionAt(t, k, slot)
  {}

  lemma InOrder(order: seq<string>, k: string)
    requires order != []
    ensures k in order <==> k in order[..|order| - 1] || k == order[|order| - 1]
  {
    assert order == order[..|order| - 1] + [order[|order| - 1]];
  }

  lemma {:induction false} JoinTableFunction(
      t: Table, other: Table, order: seq<string>, mode: Mode, keys: set<string>, k: string, slot: nat)
    requires t.Keys <= keys && WellKeyed(other, keys)
    requires forall c <- order :: c in other
    ensures JoinedTable(t, other, order, mode).Keys <= keys
    ensures FunctionAt(JoinedTable(t, other, order, mode), k, slot)
         == if k in order && FunctionAt(other, k, slot).Some? then FunctionAt(other, k, slot)
            else FunctionAt(t, k, slot)
  {
    if order != [] {
      var n := |order| - 1;
      var before := JoinedTable(t, other, order[..n], mode);
      JoinTableFunction(t, other, order[..n], mode, keys, k, slot);
      assert Target(before, other[order[n]]) == order[n];
      JoinClassFunction(before, other[order[n]], mode, k, slot);
      InOrder(order, k);
    }
  }

  /** The function at a slot of a class, in the newest version that has one there. */
  function LastFunction(runs: seq<Run>, k: string, slot: nat): Option<string> {
    if runs == [] then None
    else if FunctionAt(runs[|runs| - 1].table, k, slot).Some? then FunctionAt(runs[|runs| - 1].table, k, slot)
    else LastFunction(runs[..|runs| - 1], k, slot)
  }

  /** After any joins every slot holds the function of the last join that has one. */
  lemma {:induction false} LastFunctionWins(runs: seq<Run>, keys: set<string>, k: string, slot: nat)
    requires AreRuns(runs, keys)
    ensures FunctionAt(JoinedRuns(runs, keys).table, k, slot) == LastFunction(runs, k, slot)
  {
    if runs != [] {
      var n := |runs| - 1;
      var run, before := runs[n], JoinedRuns(runs[..n], keys);
      assert IsRun(run, keys);
      LastFunctionWins(runs[..n], keys, k, slot);
      JoinRunsKeys(runs[..n], keys);
      JoinTableFunction(before.table, run.table, run.order, Versioned(before.source, run.info), keys, k, slot);
    }
  }

  // ----- the type a member had at each version -----

  datatype Occurrence = Occurrence(info: PdbNameInfo, typeName: string)

  /** The versions whose PDB has the member, with its type there. */
  function Occurrences(runs: seq<Run>, k: string, name: string): seq<Occurrence> {
    if runs == [] then []
    else
      var run := runs[|runs| - 1];
      var before := Occurrences(runs[..|runs| - 1], k, name);
      match Member(run.table, k, name)
      case Some(v) => before + [Occurrence(run.info, v.typeName)]
      case None => before
  }

  /** The type at version `v`: that of the last occurrence up to `v`. */
  function TypeAt(occ: seq<Occurrence>, v: string): string
    requires occ != []
  {
    var last := occ[|occ| - 1];
    if |occ| == 1 || AtMost(last.info.baseVersion, v) then last.typeName else TypeAt(occ[..|occ| - 1], v)
  }

  /** The record in force at version `v`: the last one up to `v`. */
  function InForce(h: History, v: string): (r: Record)
    requires h != []
    ensures r in h
  {
    var last := h[|h| - 1];
    if |h| == 1 || AtMost(last.key, v) then last else InForce(h[..|h| - 1], v)
  }

  /** What the merged table says the type was: the record in force, or the
      current type when no change was recorded. */
  function RecordedType(m: MemberVariable, v: string): string {
    if m.history == [] then m.typeName else InForce(m.history, v).versioned.typeName
  }

  predicate Ascending(runs: seq<Run>) {
    forall i, j :: 0 <= i < j < |runs| ==> AtMost(runs[i].info.baseVersion, runs[j].info.baseVersion)
  }

  predicate StrictlyAscending(runs: seq<Run>) {
    forall i, j :: 0 <= i < j < |runs| ==> Less(runs[i].info.baseVersion, runs[j].info.baseVersion)
  }

  predicate VersionOrdered(runs: seq<Run>) {
    forall i, j :: 0 <= i < j < |runs| ==>
      !Earlier(runs[j].info.major, runs[j].info.minor, runs[i].info.major, runs[i].info.minor)
  }

  predicate SortedHistory(h: History) {
    forall i, j :: 0 <= i < j < |h| ==> Less(h[i].key, h[j].key)
  }

  function InfoOf(r: Record): PdbNameInfo {
    PdbNameInfo(r.versioned.major, r.versioned.minor, r.key)
  }

  predicate OccAscend(occ: seq<Occurrence>) {
    forall i, j :: 0 <= i < j < |occ| ==> AtMost(occ[i].info.baseVersion, occ[j].info.baseVersion)
  }

  predicate OccursIn(info: PdbNameInfo, occ: seq<Occurrence>) {
    exists o <- occ :: o.info == info
  }

  /** `m` is a faithful record of the occurrences: it gives the type at every
      version from the source's on, and every record but the source's stems from
      an occurrence. Below the first occurrence the type is the first one's. */
  ghost predicate Represents(m: MemberVariable, source: PdbNameInfo, occ: seq<Occurrence>)
    requires occ != []
  {
    && m.typeName == occ[|occ| - 1].typeName
    && SortedHistory(m.history)
    && (m.history != [] ==>
      && m.history[0].key == source.baseVersion
      && m.history[|m.history| - 1].versioned.typeName == m.typeName
      && AtMost(m.history[|m.history| - 1].key, occ[|occ| - 1].info.baseVersion))
    && (forall i :: 0 <= i < |m.history| ==>
      (i == 0 && InfoOf(m.history[i]) == source) || OccursIn(InfoOf(m.history[i]), occ))
    && forall v :: AtMost(source.baseVersion, v) ==> RecordedType(m, v) == TypeAt(occ, v)
  }

  /** The history a change is put into: with the source's record, if there was none. */
  function StartedHistory(m: MemberVariable, source: Option<PdbNameInfo>): History {
    if m.history == [] && source.Some? then [Record(source.value.baseVersion, Snapshot(m, source.value))]
    else m.history
  }

  lemma MergedHistory(m: MemberVariable, v: MemberVariable, source: Option<PdbNameInfo>, info: PdbNameInfo)
    ensures MergedVariable(m, v, Versioned(source, info)).history
         == if m.typeName == v.typeName then m.history
            else Put(StartedHistory(m, source), info.baseVersion, Snapshot(v, info))
  {}

  /** Recording at or after the last key appends, or overwrites the last record. */
  lemma {:induction false} PutLast(h: History, key: string, v: VersionedType)
    requires SortedHistory(h) && h != [] && AtMost(h[|h| - 1].key, key)
    ensures Put(h, key, v) == (if h[|h| - 1].key == key then h[..|h| - 1] else h) + [Record(key, v)]
  {
    LessTotal(h[|h| - 1].key, key);
    if |h| == 1 {
      assert h == [h[0]] && h[1..] == [];
    } else {
      assert Less(h[0].key, h[|h| - 1].key);
      if h[|h| - 1].key != key { LessTransitive(h[0].key, h[|h| - 1].key, key); }
      LessTotal(h[0].key, key);
      PutLast(h[1..], key, v);
      assert h == [h[0]] + h[1..];
      assert h[1..][..|h[1..]| - 1] == h[1..|h| - 1];
    }
  }

  lemma PutLastInForce(h: History, key: string, ty: VersionedType, v: string)
    requires SortedHistory(h) && h != [] && AtMost(h[|h| - 1].key, key)
    ensures Put(h, key, ty) != []
    ensures InForce(Put(h, key, ty), v)
         == if AtMost(key, v) || (|h| == 1 && h[0].key == key) then Record(key, ty) else InForce(h, v)
  {
    PutLast(h, key, ty);
    var kept := if h[|h| - 1].key == key then h[..|h| - 1] else h;
    assert (kept + [Record(key, ty)])[..|kept|] == kept;
  }

  lemma PutSorted(h: History, key: string, ty: VersionedType)
    requires SortedHistory(h) && h != [] && AtMost(h[|h| - 1].key, key)
    ensures SortedHistory(Put(h, key, ty)) && Put(h, key, ty)[0].key == h[0].key
    ensures var p := Put(h, key, ty); p[|p| - 1] == Record(key, ty)
  {
    PutLast(h, key, ty);
    LessTotal(h[|h| - 1].key, key);
    forall i | 0 <= i < |h| && h[i].key != key ensures Less(h[i].key, key) {
      if i < |h| - 1 && h[|h| - 1].key != key { LessTransitive(h[i].key, h[|h| - 1].key, key); }
    }
  }

  // ----- every join keeps the record faithful -----

  lemma FirstOccurrence(v: MemberVariable, source: PdbNameInfo, info: PdbNameInfo)
    requires v.history == []
    ensures Represents(v, source, [Occurrence(info, v.typeName)])
  {}

  lemma MoreOccurrences(h: History, source: PdbNameInfo, occ: seq<Occurrence>, o: Occurrence)
    ensures forall r <- h :: OccursIn(InfoOf(r), occ) ==> OccursIn(InfoOf(r), occ + [o])
    ensures OccursIn(o.info, occ + [o])
  {
    forall r <- h | OccursIn(InfoOf(r), occ) ensures OccursIn(InfoOf(r), occ + [o]) {
      var p :| p in occ && p.info == InfoOf(r);
      assert p in occ + [o];
    }
    assert o in occ + [o];
  }

  lemma SameTypeAfter(occ: seq<Occurrence>, o: Occurrence, w: string)
    requires occ != [] && occ[|occ| - 1].typeName == o.typeName
    requires AtMost(occ[|occ| - 1].info.baseVersion, o.info.baseVersion)
    ensures TypeAt(occ + [o], w) == TypeAt(occ, w)
  {
    assert (occ + [o])[..|occ|] == occ;
    if AtMost(o.info.baseVersion, w) {
      AtMostTransitive(occ[|occ| - 1].info.baseVersion, o.info.baseVersion, w);
    }
  }

  lemma SameTypeOccurrence(
      m: MemberVariable, source: PdbNameInfo, occ: seq<Occurrence>, v: MemberVariable, info: PdbNameInfo)
    requires occ != [] && Represents(m, source, occ) && m.typeName == v.typeName
    requires AtMost(occ[|occ| - 1].info.baseVersion, info.baseVersion)
    ensures Represents(MergedVariable(m, v, Versioned(Some(source), info)), source,
                       occ + [Occurrence(info, v.typeName)])
  {
    var occ' := occ + [Occurrence(info, v.typeName)];
    assert occ'[..|occ|] == occ;
    MoreOccurrences(m.history, source, occ, Occurrence(info, v.typeName));
    if m.history != [] {
      AtMostTransitive(m.history[|m.history| - 1].key, occ[|occ| - 1].info.baseVersion, info.baseVersion);
    }
    var merged := MergedVariable(m, v, Versioned(Some(source), info));
    assert merged.history == m.history && merged.typeName == m.typeName;
    forall w | AtMost(source.baseVersion, w) ensures RecordedType(merged, w) == TypeAt(occ', w) {
      SameTypeAfter(occ, Occurrence(info, v.typeName), w);
      assert RecordedType(m, w) == TypeAt(occ, w);
    }
  }

  lemma ChangedTypeAt(
      m: MemberVariable, source: PdbNameInfo, occ: seq<Occurrence>, v: MemberVariable, info: PdbNameInfo, w: string)
    requires occ != [] && Represents(m, source, occ) && m.typeName != v.typeName
    requires AtMost(source.baseVersion, w)
    requires var h := StartedHistory(m, Some(source)); AtMost(h[|h| - 1].key, info.baseVersion)
    ensures RecordedType(MergedVariable(m, v, Versioned(Some(source), info)), w)
         == TypeAt(occ + [Occurrence(info, v.typeName)], w)
  {
    var h := StartedHistory(m, Some(source));
    assert (occ + [Occurrence(info, v.typeName)])[..|occ|] == occ;
    MergedHistory(m, v, Some(source), info);
    PutLastInForce(h, info.baseVersion, Snapshot(v, info), w);
    assert RecordedType(m, w) == TypeAt(occ, w);
    assert m.history == [] ==> InForce(h, w).versioned.typeName == m.typeName;
  }

  lemma ChangedTypeOccurrence(
      m: MemberVariable, source: PdbNameInfo, occ: seq<Occurrence>, v: MemberVariable, info: PdbNameInfo)
    requires occ != [] && Represents(m, source, occ) && m.typeName != v.typeName
    requires AtMost(source.baseVersion, occ[0].info.baseVersion)
    requires AtMost(occ[|occ| - 1].info.baseVersion, info.baseVersion)
    requires AtMost(source.baseVersion, info.baseVersion)
    ensures Represents(MergedVariable(m, v, Versioned(Some(source), info)), source,
                       occ + [Occurrence(info, v.typeName)])
  {
    var occ' := occ + [Occurrence(info, v.typeName)];
    var h := StartedHistory(m, Some(source));
    var merged := MergedVariable(m, v, Versioned(Some(source), info));
    if m.history != [] {
      AtMostTransitive(h[|h| - 1].key, occ[|occ| - 1].info.baseVersion, info.baseVersion);
    }
    PutLast(h, info.baseVersion, Snapshot(v, info));
    MergedHistory(m, v, Some(source), info);
    PutSorted(h, info.baseVersion, Snapshot(v, info));
    MoreOccurrences(h, source, occ, Occurrence(info, v.typeName));
    LessTotal(info.baseVersion, info.baseVersion);
    forall w | AtMost(source.baseVersion, w) ensures RecordedType(merged, w) == TypeAt(occ', w) {
      ChangedTypeAt(m, source, occ, v, info, w);
    }
  }

  /** The record after one more occurrence. */
  lemma NextOccurrence(
      m: MemberVariable, source: PdbNameInfo, occ: seq<Occurrence>, v: MemberVariable, info: PdbNameInfo)
    requires occ != [] && Represents(m, source, occ)
    requires AtMost(source.baseVersion, occ[0].info.baseVersion)
    requires AtMost(occ[|occ| - 1].info.baseVersion, info.baseVersion)
    requires OccAscend(occ)
    ensures Represents(MergedVariable(m, v, Versioned(Some(source), info)), source,
                       occ + [Occurrence(info, v.typeName)])
  {
    var first, last := occ[0].info.baseVersion, occ[|occ| - 1].info.baseVersion;
    LessTotal(first, first);
    AtMostTransitive(source.baseVersion, first, last);
    AtMostTransitive(source.baseVersion, last, info.baseVersion);
    if m.typeName == v.typeName {
      SameTypeOccurrence(m, source, occ, v, info);
    } else {
      ChangedTypeOccurrence(m, source, occ, v, info);
    }
  }

  // ----- which changes are recorded -----

  /** The type just below version `v`: that of the last earlier occurrence, or of
      the first one when there is none. */
  function TypeBelow(occ: seq<Occurrence>, v: string): string
    requires occ != []
  {
    var last := occ[|occ| - 1];
    if |occ| == 1 || Less(last.info.baseVersion, v) then last.typeName else TypeBelow(occ[..|occ| - 1], v)
  }

  predicate HasKey(h: History, v: string) { exists r <- h :: r.key == v }

  /** Some PDB of version `v` has another type than the versions below it. */
  predicate ChangesAt(occ: seq<Occurrence>, v: string)
    requires occ != []
  {
    exists o <- occ :: o.info.baseVersion == v && o.typeName != TypeBelow(occ, v)
  }

  predicate NeverChanges(occ: seq<Occurrence>)
    requires occ != []
  {
    forall o <- occ :: o.typeName == occ[0].typeName
  }

  /** Exactly the versions at which the type changes have a record. */
  ghost predicate RecordsChanges(m: MemberVariable, source: PdbNameInfo, occ: seq<Occurrence>)
    requires occ != []
  {
    && (m.history == [] <==> NeverChanges(occ))
    && forall v :: Less(source.baseVersion, v) ==> (HasKey(m.history, v) <==> ChangesAt(occ, v))
  }

  lemma {:induction false} PutKeys(h: History, key: string, ty: VersionedType, v: string)
    ensures HasKey(Put(h, key, ty), v) <==> v == key || HasKey(h, v)
  {
    var p := Put(h, key, ty);
    if h == [] || Less(key, h[0].key) {
      assert p == [Record(key, ty)] + h;
    } else if h[0].key == key {
      assert h == [h[0]] + h[1..] && p == [Record(key, ty)] + h[1..];
    } else {
      PutKeys(h[1..], key, ty, v);
      assert h == [h[0]] + h[1..] && p == [h[0]] + Put(h[1..], key, ty);
    }
  }

  /** An occurrence at `w`, not below the others, adds a change at `w` at most. */
  lemma MoreChanges(occ: seq<Occurrence>, o: Occurrence, v: string)
    requires occ != [] && AtMost(occ[|occ| - 1].info.baseVersion, o.info.baseVersion) && OccAscend(occ)
    ensures !Less(o.info.baseVersion, v) ==>
      (ChangesAt(occ + [o], v) <==>
        ChangesAt(occ, v) || (o.info.baseVersion == v && o.typeName != TypeBelow(occ, v)))
    ensures Less(o.info.baseVersion, v) ==> !ChangesAt(occ + [o], v) && !ChangesAt(occ, v)
  {
    var occ' := occ + [o];
    assert occ'[..|occ|] == occ;
    LessTotal(o.info.baseVersion, v);
    if Less(o.info.baseVersion, v) {
      forall p | p in occ' ensures p.info.baseVersion != v {
        if p in occ {
          var i :| 0 <= i < |occ| && occ[i] == p;
          LessTotal(p.info.baseVersion, p.info.baseVersion);
          AtMostTransitive(occ[i].info.baseVersion, occ[|occ| - 1].info.baseVersion, o.info.baseVersion);
        }
      }
    } else {
      assert o in occ' && forall p <- occ :: p in occ';
    }
  }

  /** Seen from a version not below any occurrence, the type below it is the last
      one's, or differs from it only if a change at that version is recorded. */
  lemma BelowOrChanged(occ: seq<Occurrence>, v: string)
    requires occ != [] && AtMost(occ[|occ| - 1].info.baseVersion, v)
    ensures occ[|occ| - 1].typeName == TypeBelow(occ, v) || ChangesAt(occ, v)
  {
    var last := occ[|occ| - 1];
    LessTotal(last.info.baseVersion, v);
    assert last in occ;
  }

  lemma ChangesStep(m: MemberVariable, source: PdbNameInfo, occ: seq<Occurrence>, v: MemberVariable, info: PdbNameInfo)
    requires occ != [] && m.typeName == occ[|occ| - 1].typeName && RecordsChanges(m, source, occ) && OccAscend(occ)
    requires AtMost(occ[|occ| - 1].info.baseVersion, info.baseVersion)
    ensures RecordsChanges(MergedVariable(m, v, Versioned(Some(source), info)), source,
                           occ + [Occurrence(info, v.typeName)])
  {
    var o := Occurrence(info, v.typeName);
    var occ', merged := occ + [o], MergedVariable(m, v, Versioned(Some(source), info));
    var h := StartedHistory(m, Some(source));
    MergedHistory(m, v, Some(source), info);
    assert o in occ' && occ[|occ| - 1] in occ && forall p <- occ :: p in occ';
    forall w | Less(source.baseVersion, w) ensures HasKey(merged.history, w) <==> ChangesAt(occ', w) {
      LessTotal(source.baseVersion, w);
      PutKeys(h, info.baseVersion, Snapshot(v, info), w);
      MoreChanges(occ, o, w);
      if w == info.baseVersion { BelowOrChanged(occ, w); }
      assert HasKey(h, w) <==> HasKey(m.history, w);
      LessTotal(info.baseVersion, info.baseVersion);
    }
  }

  // ----- the theorems -----

  /** The source of the shared table is the first PDB of an ascending run. */
  lemma {:induction false} SourceIsFirst(runs: seq<Run>, keys: set<string>)
    requires AreRuns(runs, keys) && VersionOrdered(runs)
    ensures JoinedRuns(runs, keys).source == if runs == [] then None else Some(runs[0].info)
  {
    if runs != [] {
      SourceIsFirst(runs[..|runs| - 1], keys);
    }
  }

  lemma {:induction false} OccurrencesAscend(runs: seq<Run>, k: string, name: string)
    requires Ascending(runs)
    ensures var occ := Occurrences(runs, k, name);
      && OccAscend(occ)
      && (forall o <- occ :: exists i :: 0 <= i < |runs| && runs[i].info == o.info)
  {
    if runs != [] {
      var n := |runs| - 1;
      OccurrencesAscend(runs[..n], k, name);
      forall o | o in Occurrences(runs[..n], k, name)
        ensures AtMost(o.info.baseVersion, runs[n].info.baseVersion)
        ensures exists i :: 0 <= i < |runs| && runs[i].info == o.info
      {
        var i :| 0 <= i < n && runs[..n][i].info == o.info;
        assert runs[i].info == o.info;
      }
      var occ := Occurrences(runs, k, name);
      forall i, j | 0 <= i < j < |occ| ensures AtMost(occ[i].info.baseVersion, occ[j].info.baseVersion) {
        assert occ[i] in Occurrences(runs[..n], k, name);
      }
    }
  }

  ghost predicate RecordsAll(m: Option<MemberVariable>, source: PdbNameInfo, occ: seq<Occurrence>) {
    if occ == [] then m.None?
    else m.Some? && Represents(m.value, source, occ) && RecordsChanges(m.value, source, occ)
  }

  /** The shared table after `runs` faithfully records member `name` of class `k`:
      the type at every version, and a record exactly where the type changes. */
  ghost predicate Recorded(runs: seq<Run>, keys: set<string>, k: string, name: string)
    requires AreRuns(runs, keys)
  {
    var m := Member(JoinedRuns(runs, keys).table, k, name);
    if runs == [] then m.None? else RecordsAll(m, runs[0].info, Occurrences(runs, k, name))
  }

  lemma MergeRecorded(e: Option<MemberVariable>, v: Option<MemberVariable>, source: Option<PdbNameInfo>,
                      first: PdbNameInfo, occ: seq<Occurrence>, info: PdbNameInfo)
    requires RecordsAll(e, first, occ) && (v.Some? ==> v.value.history == [])
    requires occ != [] ==>
      && source == Some(first)
      && AtMost(first.baseVersion, occ[0].info.baseVersion)
      && AtMost(occ[|occ| - 1].info.baseVersion, info.baseVersion)
    requires OccAscend(occ)
    ensures RecordsAll(MergedMember(e, v, Versioned(source, info)), first,
                       if v.Some? then occ + [Occurrence(info, v.value.typeName)] else occ)
  {
    if v.Some? {
      if occ == [] {
        FirstOccurrence(v.value, first, info);
      } else {
        NextOccurrence(e.value, first, occ, v.value, info);
        ChangesStep(e.value, first, occ, v.value, info);
      }
    }
  }

  /** A member after one more run is the merge of what both sides have. */
  lemma MemberStep(runs: seq<Run>, keys: set<string>, k: string, name: string)
    requires AreRuns(runs, keys) && runs != []
    ensures var before := JoinedRuns(runs[..|runs| - 1], keys); var run := runs[|runs| - 1];
      Member(JoinedRuns(runs, keys).table, k, name)
        == MergedMember(Member(before.table, k, name), Member(run.table, k, name), Versioned(before.source, run.info))
    ensures var v := Member(runs[|runs| - 1].table, k, name); v.Some? ==> v.value.history == []
  {
    var n := |runs| - 1;
    JoinRunsKeys(runs[..n], keys);
    assert runs[n] in runs;
    JoinRunMember(JoinedRuns(runs[..n], keys), runs[n], keys, k, name);
    assert k in runs[n].table ==> FreshVariables(runs[n].table[k].variables);
  }

  /** The member as the last PDB that has it declares it. */
  function LastMember(runs: seq<Run>, k: string, name: string): Option<MemberVariable> {
    if runs == [] then None
    else if Member(runs[|runs| - 1].table, k, name).Some? then Member(runs[|runs| - 1].table, k, name)
    else LastMember(runs[..|runs| - 1], k, name)
  }

  /** The merged member has the type and bitfield layout of the last PDB. */
  lemma {:induction false} NewestWins(runs: seq<Run>, keys: set<string>, k: string, name: string)
    requires AreRuns(runs, keys)
    ensures var m, last := Member(JoinedRuns(runs, keys).table, k, name), LastMember(runs, k, name);
      && (m.Some? <==> last.Some?)
      && (m.Some? ==> m.value.typeName == last.value.typeName && m.value.bits == last.value.bits)
  {
    if runs != [] {
      NewestWins(runs[..|runs| - 1], keys, k, name);
      MemberStep(runs, keys, k, name);
    }
  }

  /** Ascending runs give occurrences between the source and the next version. */
  lemma OccurrencesBetween(runs: seq<Run>, k: string, name: string)
    requires Ascending(runs) && runs != []
    ensures var occ := Occurrences(runs[..|runs| - 1], k, name);
      && OccAscend(occ)
      && (occ != [] ==>
        && AtMost(runs[0].info.baseVersion, occ[0].info.baseVersion)
        && AtMost(occ[|occ| - 1].info.baseVersion, runs[|runs| - 1].info.baseVersion))
  {
    var n := |runs| - 1;
    var occ := Occurrences(runs[..n], k, name);
    OccurrencesAscend(runs[..n], k, name);
    if occ != [] {
      LessTotal(runs[0].info.baseVersion, runs[0].info.baseVersion);
      var i :| 0 <= i < n && runs[..n][i].info == occ[0].info;
      var j :| 0 <= j < n && runs[..n][j].info == occ[|occ| - 1].info;
    }
  }

  lemma RecordedStep(runs: seq<Run>, keys: set<string>, k: string, name: string)
    requires AreRuns(runs, keys) && Ascending(runs) && VersionOrdered(runs) && runs != []
    requires Recorded(runs[..|runs| - 1], keys, k, name)
    ensures Recorded(runs, keys, k, name)
  {
    var n := |runs| - 1;
    MemberStep(runs, keys, k, name);
    SourceIsFirst(runs[..n], keys);
    OccurrencesBetween(runs, k, name);
    var before, first := JoinedRuns(runs[..n], keys), runs[0].info;
    var e, v, occ := Member(before.table, k, name), Member(runs[n].table, k, name), Occurrences(runs[..n], k, name);
    assert RecordsAll(e, first, occ);
    MergeRecorded(e, v, before.source, first, occ, runs[n].info);
    assert Occurrences(runs, k, name) == if v.Some? then occ + [Occurrence(runs[n].info, v.value.typeName)] else occ;
  }

  /** Lossless: for ascending versions, the shared table has every member the
      versions have, and its record gives the member's type at every version. */
  lemma {:induction false} HistoryIsLossless(runs: seq<Run>, keys: set<string>, k: string, name: string)
    requires AreRuns(runs, keys) && Ascending(runs) && VersionOrdered(runs)
    ensures Recorded(runs, keys, k, name)
  {
    if runs != [] {
      HistoryIsLossless(runs[..|runs| - 1], keys, k, name);
      RecordedStep(runs, keys, k, name);
    }
  }

  // ----- minimality -----

  predicate NeighboursDiffer(h: History) {
    forall i :: 0 < i < |h| ==> h[i - 1].versioned.typeName != h[i].versioned.typeName
  }

  /** Neighbouring records differ, and a single type is never recorded. */
  predicate Minimal(h: History) { NeighboursDiffer(h) && |h| != 1 }

  lemma {:induction false} InForceBetween(h: History, i: nat, v: string)
    requires SortedHistory(h) && i < |h| && AtMost(h[i].key, v)
    requires i + 1 < |h| ==> Less(v, h[i + 1].key)
    ensures InForce(h, v) == h[i]
  {
    var n := |h| - 1;
    if i < n {
      LessTotal(v, h[i + 1].key);
      if i + 1 < n { LessTransitive(v, h[i + 1].key, h[n].key); }
      InForceBetween(h[..n], i, v);
    }
  }

  /** A version between `floor` and `v` with the type that is just below `v`. */
  lemma {:induction false} JustBelow(occ: seq<Occurrence>, floor: string, v: string) returns (u: string)
    requires occ != [] && Less(floor, v)
    ensures AtMost(floor, u) && Less(u, v) && TypeBelow(occ, v) == TypeAt(occ, u)
  {
    var n := |occ| - 1;
    var last := occ[n].info.baseVersion;
    LessTotal(floor, floor);
    LessTotal(last, last);
    LessTotal(floor, last);
    if Less(last, v) {
      u := if Less(floor, last) then last else floor;
    } else if n == 0 {
      u := floor;
    } else {
      u := JustBelow(occ[..n], floor, v);
      if AtMost(last, u) {
        LessTotal(last, u);
        if last != u { LessTransitive(last, u, v); }
      }
    }
  }

  /** A record and the one before it hold the type at its version and just below. */
  lemma RecordAndBefore(m: MemberVariable, source: PdbNameInfo, occ: seq<Occurrence>, i: nat)
    requires occ != [] && Represents(m, source, occ) && 0 < i < |m.history|
    ensures Less(source.baseVersion, m.history[i].key)
    ensures m.history[i].versioned.typeName == TypeAt(occ, m.history[i].key)
    ensures m.history[i - 1].versioned.typeName == TypeBelow(occ, m.history[i].key)
  {
    var h := m.history;
    var floor, v := h[i - 1].key, h[i].key;
    LessTotal(source.baseVersion, v);
    LessTotal(v, v);
    InForceBetween(h, i, v);
    var u := JustBelow(occ, floor, v);
    if i > 1 { LessTotal(source.baseVersion, floor); }
    AtMostTransitive(source.baseVersion, floor, u);
    InForceBetween(h, i - 1, u);
    assert RecordedType(m, v) == TypeAt(occ, v) && RecordedType(m, u) == TypeAt(occ, u);
  }

  /** A PDB whose type differs from the versions below, and is taken back by a
      later PDB of the same version. */
  predicate Bounces(source: PdbNameInfo, occ: seq<Occurrence>, o: Occurrence)
    requires occ != []
  {
    && Less(source.baseVersion, o.info.baseVersion)
    && o.typeName != TypeBelow(occ, o.info.baseVersion)
    && TypeAt(occ, o.info.baseVersion) == TypeBelow(occ, o.info.baseVersion)
  }

  predicate NothingBounces(source: PdbNameInfo, occ: seq<Occurrence>)
    requires occ != []
  {
    forall o <- occ :: !Bounces(source, occ, o)
  }

  /** Above version `v` every PDB has the type below it. */
  predicate OnlyChangesUpTo(v: string, occ: seq<Occurrence>)
    requires occ != []
  {
    forall o <- occ :: Less(v, o.info.baseVersion) ==> o.typeName == TypeBelow(occ, o.info.baseVersion)
  }

  /** All changes are between PDBs of the very first version. */
  predicate OnlyChangesAtSource(source: PdbNameInfo, occ: seq<Occurrence>)
    requires occ != []
  {
    && !NeverChanges(occ)
    && OnlyChangesUpTo(source.baseVersion, occ)
  }

  lemma NeighboursDifferIff(m: MemberVariable, source: PdbNameInfo, occ: seq<Occurrence>)
    requires occ != [] && Represents(m, source, occ) && RecordsChanges(m, source, occ)
    ensures NeighboursDiffer(m.history) <==> NothingBounces(source, occ)
  {
    var h := m.history;
    forall i | 0 < i < |h| && h[i - 1].versioned.typeName == h[i].versioned.typeName
      ensures !NothingBounces(source, occ)
    {
      RecordAndBefore(m, source, occ, i);
      assert h[i] in h && HasKey(h, h[i].key);
      var o :| o in occ && o.info.baseVersion == h[i].key && o.typeName != TypeBelow(occ, h[i].key);
      assert Bounces(source, occ, o);
    }
    forall o <- occ | Bounces(source, occ, o) ensures !NeighboursDiffer(h) {
      var v := o.info.baseVersion;
      assert HasKey(h, v);
      var r :| r in h && r.key == v;
      var i :| 0 <= i < |h| && h[i] == r;
      LessTotal(source.baseVersion, v);
      RecordAndBefore(m, source, occ, i);
    }
  }

  lemma SingleRecordIff(m: MemberVariable, source: PdbNameInfo, occ: seq<Occurrence>)
    requires occ != [] && Represents(m, source, occ) && RecordsChanges(m, source, occ)
    ensures |m.history| == 1 <==> OnlyChangesAtSource(source, occ)
  {
    var h := m.history;
    if |h| == 1 {
      forall o <- occ | Less(source.baseVersion, o.info.baseVersion)
        ensures o.typeName == TypeBelow(occ, o.info.baseVersion)
      {
        LessTotal(source.baseVersion, o.info.baseVersion);
        assert !HasKey(h, o.info.baseVersion);
      }
    }
    if |h| > 1 {
      RecordAndBefore(m, source, occ, 1);
      assert h[1] in h && HasKey(h, h[1].key);
    }
  }

  /** Minimal, for ascending joins: exactly when no version takes a change back,
      and not all changes are between PDBs of the first version. */
  lemma {:induction false} HistoryIsMinimalIff(runs: seq<Run>, keys: set<string>, k: string, name: string)
    requires AreRuns(runs, keys) && Ascending(runs) && VersionOrdered(runs)
    requires Occurrences(runs, k, name) != []
    ensures var m := Member(JoinedRuns(runs, keys).table, k, name);
      var source, occ := runs[0].info, Occurrences(runs, k, name);
      && m.Some?
      && (NeighboursDiffer(m.value.history) <==> NothingBounces(source, occ))
      && (|m.value.history| == 1 <==> OnlyChangesAtSource(source, occ))
  {
    HistoryIsLossless(runs, keys, k, name);
    var m := Member(JoinedRuns(runs, keys).table, k, name).value;
    NeighboursDifferIff(m, runs[0].info, Occurrences(runs, k, name));
    SingleRecordIff(m, runs[0].info, Occurrences(runs, k, name));
  }

  // ----- distinct versions -----

  predicate OccStrict(occ: seq<Occurrence>) {
    forall i, j :: 0 <= i < j < |occ| ==> Less(occ[i].info.baseVersion, occ[j].info.baseVersion)
  }

  lemma StrictIsAscending(runs: seq<Run>)
    requires StrictlyAscending(runs)
    ensures Ascending(runs)
  {
    forall i, j | 0 <= i < j < |runs| ensures AtMost(runs[i].info.baseVersion, runs[j].info.baseVersion) {
      LessTotal(runs[i].info.baseVersion, runs[j].info.baseVersion);
    }
  }

  lemma {:induction false} OccurrencesStrict(runs: seq<Run>, k: string, name: string)
    requires StrictlyAscending(runs)
    ensures OccStrict(Occurrences(runs, k, name))
  {
    if runs != [] {
      var n := |runs| - 1;
      OccurrencesStrict(runs[..n], k, name);
      StrictIsAscending(runs[..n]);
      OccurrencesAscend(runs[..n], k, name);
      forall o <- Occurrences(runs[..n], k, name) ensures Less(o.info.baseVersion, runs[n].info.baseVersion) {
        var i :| 0 <= i < n && runs[..n][i].info == o.info;
        assert Less(runs[i].info.baseVersion, runs[n].info.baseVersion);
      }
    }
  }

  /** When versions are distinct, the type at an occurrence's version is its own. */
  lemma {:induction false} TypeAtOwnVersion(occ: seq<Occurrence>, i: nat)
    requires i < |occ| && OccStrict(occ)
    ensures TypeAt(occ, occ[i].info.baseVersion) == occ[i].typeName
  {
    var n := |occ| - 1;
    LessTotal(occ[n].info.baseVersion, occ[n].info.baseVersion);
    if i < n {
      TypeAtOwnVersion(occ[..n], i);
    }
  }

  lemma {:induction false} TypeBelowIsPrevious(occ: seq<Occurrence>, i: nat)
    requires 0 < i < |occ| && OccStrict(occ)
    ensures TypeBelow(occ, occ[i].info.baseVersion) == occ[i - 1].typeName
  {
    var n := |occ| - 1;
    LessTotal(occ[i].info.baseVersion, occ[n].info.baseVersion);
    if i < n {
      TypeBelowIsPrevious(occ[..n], i);
    } else if n > 1 {
      assert Less(occ[n - 1].info.baseVersion, occ[n].info.baseVersion);
    }
  }

  lemma {:induction false} UnchangedSteps(source: PdbNameInfo, occ: seq<Occurrence>, i: nat)
    requires i < |occ| && OccStrict(occ) && AtMost(source.baseVersion, occ[0].info.baseVersion)
    requires OnlyChangesUpTo(source.baseVersion, occ)
    ensures occ[i].typeName == occ[0].typeName
  {
    if i > 0 {
      UnchangedSteps(source, occ, i - 1);
      TypeBelowIsPrevious(occ, i);
      var first, v := occ[0].info.baseVersion, occ[i].info.baseVersion;
      LessTotal(source.baseVersion, first);
      if source.baseVersion != first { LessTransitive(source.baseVersion, first, v); }
      assert occ[i] in occ;
    }
  }

  lemma FirstAtSource(runs: seq<Run>, k: string, name: string)
    requires Ascending(runs) && Occurrences(runs, k, name) != []
    ensures AtMost(runs[0].info.baseVersion, Occurrences(runs, k, name)[0].info.baseVersion)
  {
    OccurrencesAscend(runs, k, name);
    LessTotal(runs[0].info.baseVersion, runs[0].info.baseVersion);
    var o := Occurrences(runs, k, name)[0];
    var i :| 0 <= i < |runs| && runs[i].info == o.info;
  }

  /** When versions are distinct, the history is always minimal. */
  lemma {:induction false} HistoryIsMinimal(runs: seq<Run>, keys: set<string>, k: string, name: string)
    requires AreRuns(runs, keys) && StrictlyAscending(runs) && VersionOrdered(runs)
    ensures var m := Member(JoinedRuns(runs, keys).table, k, name); m.Some? ==> Minimal(m.value.history)
  {
    StrictIsAscending(runs);
    HistoryIsLossless(runs, keys, k, name);
    var occ := Occurrences(runs, k, name);
    if occ != [] {
      var source := runs[0].info;
      HistoryIsMinimalIff(runs, keys, k, name);
      OccurrencesStrict(runs, k, name);
      FirstAtSource(runs, k, name);
      forall o <- occ ensures !Bounces(source, occ, o) {
        var i :| 0 <= i < |occ| && occ[i] == o;
        TypeAtOwnVersion(occ, i);
      }
      if OnlyChangesAtSource(source, occ) {
        forall o <- occ ensures o.typeName == occ[0].typeName {
          var i :| 0 <= i < |occ| && occ[i] == o;
          UnchangedSteps(source, occ, i);
        }
      }
    }
  }

  /** A version that bounces: A, then B and A at the same later version. */
  lemma VariantsAreNotMinimal(v: MemberVariable, lo: PdbNameInfo, hi: PdbNameInfo, a: string, b: string)
    returns (m: MemberVariable)
    requires v.history == [] && a != b && Less(lo.baseVersion, hi.baseVersion)
    ensures var va, vb := v.(typeName := a), v.(typeName := b);
      m == MergedVariable(MergedVariable(va, vb, Versioned(Some(lo), hi)), va, Versioned(Some(lo), hi))
    ensures !Minimal(m.history)
    ensures Bounces(lo, [Occurrence(lo, a), Occurrence(hi, b), Occurrence(hi, a)], Occurrence(hi, b))
  {
    var va, vb := v.(typeName := a), v.(typeName := b);
    var m1 := MergedVariable(va, vb, Versioned(Some(lo), hi));
    m := MergedVariable(m1, va, Versioned(Some(lo), hi));
    LessTotal(lo.baseVersion, hi.baseVersion);
    LessTotal(hi.baseVersion, hi.baseVersion);
    var h0 := Put([], lo.baseVersion, Snapshot(va, lo));
    PutLast(h0, hi.baseVersion, Snapshot(vb, hi));
    PutLast(m1.history, hi.baseVersion, Snapshot(va, hi));
    assert m.history[0].versioned.typeName == m.history[1].versioned.typeName;
    var occ := [Occurrence(lo, a), Occurrence(hi, b), Occurrence(hi, a)];
    assert occ[..2] == [Occurrence(lo, a), Occurrence(hi, b)];
    var two := [Occurrence(lo, a), Occurrence(hi, b)];
    assert two[..1] == [Occurrence(lo, a)];
    assert TypeBelow(two, hi.baseVersion) == a;
  }
}
