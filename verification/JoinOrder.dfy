/** Joining versions in any order: exactly which merges keep the history faithful. */
module JoinOrder {
  import opened Text
  import opened VersionKeys
  import opened TypeContainer
  import opened TypeHistory

  // ----- recording anywhere in the history -----

  /** `r` is the last record up to `v`, or the first one when all are later. */
  predicate IsInForce(h: History, v: string, r: Record) {
    r in h && if AtMost(r.key, v) then forall s <- h :: Less(r.key, s.key) ==> Less(v, s.key)
              else forall s <- h :: AtMost(r.key, s.key)
  }

  /** A record with key `w` would be in force at `v`. */
  predicate Covered(h: History, w: string, v: string) {
    if AtMost(w, v) then forall s <- h :: Less(w, s.key) ==> Less(v, s.key)
    else forall s <- h :: AtMost(w, s.key)
  }

  lemma {:induction false} InForceIs(h: History, v: string)
    requires SortedHistory(h) && h != []
    ensures IsInForce(h, v, InForce(h, v))
  {
    var n := |h| - 1;
    LessTotal(h[n].key, h[n].key);
    forall i | 0 <= i < n ensures !Less(h[n].key, h[i].key) {
      LessTotal(h[i].key, h[n].key);
    }
    if n > 0 && !AtMost(h[n].key, v) {
      InForceIs(h[..n], v);
      var r := InForce(h[..n], v);
      assert h == h[..n] + [h[n]];
    }
  }

  lemma InForceUnique(h: History, v: string, r: Record, s: Record)
    requires SortedHistory(h) && IsInForce(h, v, r) && IsInForce(h, v, s)
    ensures r == s
  {
    LessTotal(r.key, s.key);
    LessTotal(r.key, v);
    LessTotal(s.key, v);
    if AtMost(r.key, v) && !AtMost(s.key, v) { AtMostTransitive(s.key, r.key, v); }
    if AtMost(s.key, v) && !AtMost(r.key, v) { AtMostTransitive(r.key, s.key, v); }
    assert r.key == s.key;
    var i :| 0 <= i < |h| && h[i] == r;
    var j :| 0 <= j < |h| && h[j] == s;
    LessTotal(r.key, r.key);
  }

  /** Putting a record keeps the order and replaces the record of its key only. */
  lemma {:induction false} PutAnywhere(h: History, key: string, ty: VersionedType)
    requires SortedHistory(h)
    ensures SortedHistory(Put(h, key, ty))
    ensures forall r :: r in Put(h, key, ty) <==> r == Record(key, ty) || (r in h && r.key != key)
  {
    var p := Put(h, key, ty);
    LessTotal(key, key);
    if h != [] {
      assert h == [h[0]] + h[1..];
      LessTotal(key, h[0].key);
      if Less(key, h[0].key) {
        forall i | 0 <= i < |h| ensures Less(key, h[i].key) {
          if i > 0 { LessTransitive(key, h[0].key, h[i].key); }
        }
      } else if h[0].key == key {
        forall r <- h[1..] ensures r.key != key {
          var i :| 0 <= i < |h[1..]| && h[1..][i] == r;
          assert Less(h[0].key, h[i + 1].key);
        }
      } else {
        PutAnywhere(h[1..], key, ty);
        forall i | 0 < i < |p| ensures Less(p[0].key, p[i].key) {
          assert p[i] in Put(h[1..], key, ty);
          if p[i] in h[1..] {
            var j :| 0 <= j < |h[1..]| && h[1..][j] == p[i];
            assert Less(h[0].key, h[j + 1].key);
          }
        }
      }
    }
  }

  lemma StaysInForce(h: History, key: string, ty: VersionedType, v: string, r: Record)
    requires SortedHistory(h) && IsInForce(h, v, r) && !Covered(h, key, v)
    ensures IsInForce(Put(h, key, ty), v, r)
  {
    PutAnywhere(h, key, ty);
    LessTotal(r.key, key);
    LessTotal(key, v);
    if AtMost(key, v) {
      var s :| s in h && Less(key, s.key) && !Less(v, s.key);
      LessTotal(r.key, s.key);
      if Less(r.key, key) { LessTransitive(r.key, key, s.key); }
      if !AtMost(r.key, v) { AtMostTransitive(r.key, s.key, v); }
    } else {
      var s :| s in h && Less(s.key, key);
      if !AtMost(r.key, v) {
        LessTotal(s.key, key);
        AtMostTransitive(r.key, s.key, key);
        if r.key == key { LessTotal(r.key, s.key); }
      }
    }
  }

  /** What is in force after a record was put anywhere. */
  lemma PutInForce(h: History, key: string, ty: VersionedType, v: string)
    requires SortedHistory(h)
    ensures Put(h, key, ty) != [] && (h == [] ==> Covered(h, key, v))
    ensures InForce(Put(h, key, ty), v) == if Covered(h, key, v) then Record(key, ty) else InForce(h, v)
  {
    var p := Put(h, key, ty);
    PutAnywhere(h, key, ty);
    assert Record(key, ty) in p;
    InForceIs(p, v);
    LessTotal(key, key);
    if Covered(h, key, v) {
      InForceUnique(p, v, InForce(p, v), Record(key, ty));
    } else {
      var r := InForce(h, v);
      InForceIs(h, v);
      StaysInForce(h, key, ty, v, r);
      InForceUnique(p, v, InForce(p, v), r);
    }
  }

  // ----- faithful, whatever the order -----

  /** The type in the last joined PDB of version `v`. */
  function LatestAt(occ: seq<Occurrence>, v: string): Option<string> {
    if occ == [] then None
    else if occ[|occ| - 1].info.baseVersion == v then Some(occ[|occ| - 1].typeName)
    else LatestAt(occ[..|occ| - 1], v)
  }

  /** The record gives the type at every version that was joined. */
  predicate Faithful(m: MemberVariable, occ: seq<Occurrence>) {
    forall o <- occ :: LatestAt(occ, o.info.baseVersion) == Some(RecordedType(m, o.info.baseVersion))
  }

  predicate CoveredRight(h: History, occ: seq<Occurrence>, typeName: string, w: string, v: string) {
    v != w && Covered(h, w, v) ==> LatestAt(occ, v) == Some(typeName)
  }

  /** The test on a merge to come: an unchanged type must already be the recorded
      one at its version; a changed type must be right for every other joined
      version that its record will cover. */
  predicate StaysFaithful(
      m: MemberVariable, source: Option<PdbNameInfo>, occ: seq<Occurrence>, typeName: string, w: string)
  {
    if typeName == m.typeName then RecordedType(m, w) == typeName
    else forall o <- occ :: CoveredRight(StartedHistory(m, source), occ, typeName, w, o.info.baseVersion)
  }

  lemma MergedRecord(m: MemberVariable, source: Option<PdbNameInfo>, v: MemberVariable, info: PdbNameInfo, x: string)
    requires SortedHistory(m.history)
    ensures var merged := MergedVariable(m, v, Versioned(source, info));
      RecordedType(merged, x)
        == if v.typeName != m.typeName && Covered(StartedHistory(m, source), info.baseVersion, x) then v.typeName
           else RecordedType(m, x)
  {
    MergedHistory(m, v, source, info);
    if v.typeName != m.typeName {
      PutInForce(StartedHistory(m, source), info.baseVersion, Snapshot(v, info), x);
    }
  }

  lemma LatestAfter(occ: seq<Occurrence>, o: Occurrence, v: string)
    ensures LatestAt(occ + [o], v) == if o.info.baseVersion == v then Some(o.typeName) else LatestAt(occ, v)
  {
    assert (occ + [o])[..|occ|] == occ;
  }

  /** One merge keeps the record faithful exactly when the test passes. */
  lemma MergeStaysFaithfulIff(
      m: MemberVariable, source: Option<PdbNameInfo>, occ: seq<Occurrence>, v: MemberVariable, info: PdbNameInfo)
    requires SortedHistory(m.history) && Faithful(m, occ)
    ensures Faithful(MergedVariable(m, v, Versioned(source, info)), occ + [Occurrence(info, v.typeName)])
       <==> StaysFaithful(m, source, occ, v.typeName, info.baseVersion)
  {
    var w, o' := info.baseVersion, Occurrence(info, v.typeName);
    var merged, occ' := MergedVariable(m, v, Versioned(source, info)), occ + [o'];
    forall x ensures LatestAt(occ', x) == if w == x then Some(v.typeName) else LatestAt(occ, x) {
      LatestAfter(occ, o', x);
    }
    forall x ensures RecordedType(merged, x)
        == if v.typeName != m.typeName && Covered(StartedHistory(m, source), w, x) then v.typeName
           else RecordedType(m, x)
    {
      MergedRecord(m, source, v, info, x);
    }
    LessTotal(w, w);
    assert Covered(StartedHistory(m, source), w, w);
    assert o' in occ' && forall o <- occ :: o in occ';
    if StaysFaithful(m, source, occ, v.typeName, w) {
      forall o <- occ' ensures LatestAt(occ', o.info.baseVersion) == Some(RecordedType(merged, o.info.baseVersion)) {
        assert o == o' || o in occ;
      }
    }
    if Faithful(merged, occ') {
      assert LatestAt(occ', w) == Some(RecordedType(merged, w));
      forall o <- occ ensures LatestAt(occ', o.info.baseVersion) == Some(RecordedType(merged, o.info.baseVersion)) {
        assert o in occ';
      }
    }
  }

  // ----- whole runs -----

  ghost predicate FaithfulAfter(runs: seq<Run>, keys: set<string>, k: string, name: string)
    requires AreRuns(runs, keys)
  {
    var m, occ := Member(JoinedRuns(runs, keys).table, k, name), Occurrences(runs, k, name);
    (m.Some? <==> occ != []) && (m.Some? ==> Faithful(m.value, occ))
  }

  /** The last join passes the test for the member, as the table stood before it. */
  ghost predicate LastIsSafe(runs: seq<Run>, keys: set<string>, k: string, name: string)
    requires AreRuns(runs, keys) && runs != []
  {
    var front, run := runs[..|runs| - 1], runs[|runs| - 1];
    var before := JoinedRuns(front, keys);
    var m, v := Member(before.table, k, name), Member(run.table, k, name);
    m.Some? && v.Some? ==>
      StaysFaithful(m.value, before.source, Occurrences(front, k, name), v.value.typeName, run.info.baseVersion)
  }

  lemma {:induction false} HistoriesAreSorted(runs: seq<Run>, keys: set<string>, k: string, name: string)
    requires AreRuns(runs, keys)
    ensures var m := Member(JoinedRuns(runs, keys).table, k, name);
      (m.Some? <==> Occurrences(runs, k, name) != []) && (m.Some? ==> SortedHistory(m.value.history))
  {
    if runs != [] {
      var n := |runs| - 1;
      var before := JoinedRuns(runs[..n], keys);
      HistoriesAreSorted(runs[..n], keys, k, name);
      MemberStep(runs, keys, k, name);
      var m, v := Member(before.table, k, name), Member(runs[n].table, k, name);
      if m.Some? && v.Some? {
        MergedHistory(m.value, v.value, before.source, runs[n].info);
        PutAnywhere(StartedHistory(m.value, before.source), runs[n].info.baseVersion, Snapshot(v.value, runs[n].info));
      }
    }
  }

  lemma JoinStaysFaithfulIff(runs: seq<Run>, keys: set<string>, k: string, name: string)
    requires AreRuns(runs, keys) && runs != []
    requires FaithfulAfter(runs[..|runs| - 1], keys, k, name)
    ensures FaithfulAfter(runs, keys, k, name) <==> LastIsSafe(runs, keys, k, name)
  {
    var n := |runs| - 1;
    var before := JoinedRuns(runs[..n], keys);
    HistoriesAreSorted(runs[..n], keys, k, name);
    MemberStep(runs, keys, k, name);
    var m, v := Member(before.table, k, name), Member(runs[n].table, k, name);
    var occ := Occurrences(runs[..n], k, name);
    if m.Some? && v.Some? {
      MergeStaysFaithfulIff(m.value, before.source, occ, v.value, runs[n].info);
    } else if v.Some? {
      assert occ == [] && Occurrences(runs, k, name) == [Occurrence(runs[n].info, v.value.typeName)];
    }
  }

  ghost predicate FaithfulThroughout(runs: seq<Run>, keys: set<string>, k: string, name: string)
    requires AreRuns(runs, keys)
  {
    && FaithfulAfter(runs, keys, k, name)
    && (runs != [] ==> FaithfulThroughout(runs[..|runs| - 1], keys, k, name))
  }

  ghost predicate EveryJoinIsSafe(runs: seq<Run>, keys: set<string>, k: string, name: string)
    requires AreRuns(runs, keys)
  {
    runs != [] ==> LastIsSafe(runs, keys, k, name) && EveryJoinIsSafe(runs[..|runs| - 1], keys, k, name)
  }

  /** In any order: the record is faithful after every join exactly when every
      join passes the test. */
  lemma {:induction false} FaithfulThroughoutIff(runs: seq<Run>, keys: set<string>, k: string, name: string)
    requires AreRuns(runs, keys)
    ensures FaithfulThroughout(runs, keys, k, name) <==> EveryJoinIsSafe(runs, keys, k, name)
  {
    if runs != [] {
      FaithfulThroughoutIff(runs[..|runs| - 1], keys, k, name);
      if FaithfulThroughout(runs[..|runs| - 1], keys, k, name) {
        JoinStaysFaithfulIff(runs, keys, k, name);
      }
    }
  }

  lemma {:induction false} LatestIsTypeAt(occ: seq<Occurrence>, o: Occurrence)
    requires OccAscend(occ) && o in occ
    ensures LatestAt(occ, o.info.baseVersion) == Some(TypeAt(occ, o.info.baseVersion))
  {
    var n := |occ| - 1;
    var i :| 0 <= i < |occ| && occ[i] == o;
    var last := occ[n].info.baseVersion;
    LessTotal(o.info.baseVersion, last);
    if last != o.info.baseVersion {
      assert i < n && AtMost(o.info.baseVersion, last);
      assert occ[..n][i] == o;
      LatestIsTypeAt(occ[..n], o);
    }
  }

  /** Ascending joins pass every test. */
  lemma {:induction false} AscendingIsFaithful(runs: seq<Run>, keys: set<string>, k: string, name: string)
    requires AreRuns(runs, keys) && Ascending(runs) && VersionOrdered(runs)
    ensures FaithfulThroughout(runs, keys, k, name)
  {
    HistoryIsLossless(runs, keys, k, name);
    OccurrencesAscend(runs, k, name);
    var occ := Occurrences(runs, k, name);
    if occ != [] { FirstAtSource(runs, k, name); }
    forall o <- occ ensures LatestAt(occ, o.info.baseVersion) == Some(TypeAt(occ, o.info.baseVersion)) {
      LatestIsTypeAt(occ, o);
    }
    forall o <- occ ensures AtMost(runs[0].info.baseVersion, o.info.baseVersion) {
      var i :| 0 <= i < |occ| && occ[i] == o;
      LessTotal(o.info.baseVersion, o.info.baseVersion);
      AtMostTransitive(runs[0].info.baseVersion, occ[0].info.baseVersion, occ[i].info.baseVersion);
    }
    if runs != [] { AscendingIsFaithful(runs[..|runs| - 1], keys, k, name); }
  }

  /** An order that fails the test: mid has B, then lo and hi both have A. The
      source moves to lo, but the record says B at hi. */
  lemma OutOfOrderIsLossy(
      v: MemberVariable, lo: PdbNameInfo, mid: PdbNameInfo, hi: PdbNameInfo, a: string, b: string)
    returns (m: MemberVariable)
    requires v.history == [] && a != b
    requires Less(lo.baseVersion, mid.baseVersion) && Less(mid.baseVersion, hi.baseVersion)
    ensures var va, vb := v.(typeName := a), v.(typeName := b);
      var m1 := MergedVariable(vb, va, Versioned(Some(mid), lo));
      && m == MergedVariable(m1, va, Versioned(Some(lo), hi))
      && !StaysFaithful(m1, Some(lo), [Occurrence(mid, b), Occurrence(lo, a)], a, hi.baseVersion)
    ensures RecordedType(m, hi.baseVersion) == b
  {
    var va, vb := v.(typeName := a), v.(typeName := b);
    var m1 := MergedVariable(vb, va, Versioned(Some(mid), lo));
    m := MergedVariable(m1, va, Versioned(Some(lo), hi));
    LessTotal(lo.baseVersion, mid.baseVersion);
    LessTotal(mid.baseVersion, hi.baseVersion);
    var h0 := [Record(mid.baseVersion, Snapshot(vb, mid))];
    assert m1.history == Put(h0, lo.baseVersion, Snapshot(va, lo));
    assert m1.history == [Record(lo.baseVersion, Snapshot(va, lo))] + h0;
  }
}
