/** Merging the classes of one engine version after another, and the compressed
    history of type changes it leaves on every member (UVTD/src/TypeContainer.cpp). */
module TypeContainer {
  import opened Text
  import opened VersionKeys

  // ----- the structs -----

  datatype Bitfield = Bitfield(isBitfield: bool, position: nat, length: nat)
  datatype VersionedType = VersionedType(typeName: string, size: nat, major: nat, minor: nat, bits: Bitfield)
  datatype Record = Record(key: string, versioned: VersionedType)

  /** `std::map<StringType, VersionedType>`, in key order. */
  type History = seq<Record>

  datatype MemberVariable = MemberVariable(
    name: string, typeName: string, offset: int, size: nat, bits: Bitfield, history: History)

  datatype ClassEntry = ClassEntry(
    className: string, classNameClean: string,
    functions: map<nat, string>, variables: seq<MemberVariable>,
    validForVTable: bool, validForMemberVars: bool)

  type Table = map<string, ClassEntry>

  /** Which `join` is running: the plain one overwrites, the versioned one
      records a type change between the container's source and `info`. */
  datatype Mode = Plain | Versioned(source: Option<PdbNameInfo>, info: PdbNameInfo)

  // ----- what the joins compute -----

  /** `map[key] = value` */
  function Put(h: History, key: string, v: VersionedType): History {
    if h == [] || Less(key, h[0].key) then [Record(key, v)] + h
    else if h[0].key == key then [Record(key, v)] + h[1..]
    else [h[0]] + Put(h[1..], key, v)
  }

  function Snapshot(v: MemberVariable, info: PdbNameInfo): VersionedType {
    VersionedType(v.typeName, v.size, info.major, info.minor, v.bits)
  }

  /** Two members of the same name become one. */
  function MergedVariable(e: MemberVariable, v: MemberVariable, mode: Mode): MemberVariable {
    match mode
    case Plain => v
    case Versioned(source, info) =>
      if e.typeName == v.typeName then e.(offset := v.offset, bits := v.bits)
      else
        var h := if e.history == [] && source.Some?
                 then Put([], source.value.baseVersion, Snapshot(e, source.value)) else e.history;
        e.(typeName := v.typeName, size := v.size, bits := v.bits,
           history := Put(h, info.baseVersion, Snapshot(v, info)))
  }

  function MemberIndex(vars: seq<MemberVariable>, name: string): (r: Option<nat>)
    ensures r.Some? ==> r.value < |vars| && vars[r.value].name == name
    ensures r.Some? ==> forall i :: 0 <= i < r.value ==> vars[i].name != name
    ensures r.None? ==> forall i :: 0 <= i < |vars| ==> vars[i].name != name
  {
    if vars == [] then None
    else if vars[0].name == name then Some(0)
    else match MemberIndex(vars[1..], name) { case Some(i) => Some(i + 1) case None => None }
  }

  function JoinedVariable(vars: seq<MemberVariable>, v: MemberVariable, mode: Mode): seq<MemberVariable> {
    match MemberIndex(vars, v.name)
    case Some(i) => vars[i := MergedVariable(vars[i], v, mode)]
    case None => vars + [v]
  }

  function JoinedVariables(vars: seq<MemberVariable>, incoming: seq<MemberVariable>, mode: Mode): seq<MemberVariable> {
    if incoming == [] then vars
    else JoinedVariable(JoinedVariables(vars, incoming[..|incoming| - 1], mode), incoming[|incoming| - 1], mode)
  }

  function ReplaceFirst(s: string, pat: string, rep: string): string {
    match FindFrom(s, pat, 0)
    case Some(i) => s[..i] + rep + s[i + |pat|..]
    case None => s
  }

  const FIXED_ARRAY := "FFixedUObjectArray"
  const CHUNKED_ARRAY := "FChunkedFixedUObjectArray"
  const STATIC_ARRAY := "TStatic" + "IndirectArrayThreadSafeRead<UObjectBase,8388608,16384>"

  /** `unify_uobject_array_if_needed` */
  function Unify(s: string): string {
    if FindFrom(s, FIXED_ARRAY, 0).Some? then ReplaceFirst(s, FIXED_ARRAY, "TUObjectArray")
    else if FindFrom(s, CHUNKED_ARRAY, 0).Some? then ReplaceFirst(s, CHUNKED_ARRAY, "TUObjectArray")
    else ReplaceFirst(s, STATIC_ARRAY, "TUObjectArray")
  }

  /** The entry a class is merged into: found under its unified name, or else
      emplaced under its clean one, which keeps an entry already there. */
  function Target(t: Table, c: ClassEntry): string {
    if Unify(c.className) in t then Unify(c.className) else c.classNameClean
  }

  function EntryFor(t: Table, c: ClassEntry): ClassEntry {
    var e := if Target(t, c) in t then t[Target(t, c)]
             else ClassEntry(Unify(c.className), c.classNameClean, map[], [], false, false);
    e.(validForVTable := c.validForVTable, validForMemberVars := c.validForMemberVars)
  }

  function JoinedClass(t: Table, c: ClassEntry, mode: Mode): Table {
    var e := EntryFor(t, c);
    t[Target(t, c) := e.(functions := e.functions + c.functions,
                         variables := JoinedVariables(e.variables, c.variables, mode))]
  }

  /** The classes of `other`, merged in the order the hash map yields them. */
  function JoinedTable(t: Table, other: Table, order: seq<string>, mode: Mode): Table
    requires forall k <- order :: k in other
  {
    if order == [] then t
    else JoinedClass(JoinedTable(t, other, order[..|order| - 1], mode), other[order[|order| - 1]], mode)
  }

  function EarliestSource(source: Option<PdbNameInfo>, info: PdbNameInfo): Option<PdbNameInfo> {
    match source
    case None => Some(info)
    case Some(s) => if Earlier(info.major, info.minor, s.major, s.minor) then Some(info) else source
  }

  ghost predicate IsOrder(order: seq<string>, t: Table) {
    && (forall k :: k in order <==> k in t)
    && (forall i, j :: 0 <= i < j < |order| ==> order[i] != order[j])
  }

  // ----- the class -----

  class TypeContainer {
    var classEntries: Table
    var sourcePdbInfo: Option<PdbNameInfo>

    constructor ()
      ensures classEntries == map[] && sourcePdbInfo == None
    {
      classEntries := map[];
      sourcePdbInfo := None;
    }

    method GetOrCreateClassEntry(c: ClassEntry) returns (key: string)
      modifies this`classEntries
      ensures key == Target(old(classEntries), c)
      ensures classEntries == old(classEntries)[key := EntryFor(old(classEntries), c)]
    {
      var unified := Unify(c.className);
      var entry;
      if unified in classEntries {
        key, entry := unified, classEntries[unified];
      } else {
        key := c.classNameClean;
        entry := if key in classEntries then classEntries[key]
                 else ClassEntry(unified, c.classNameClean, map[], [], false, false);
      }
      classEntries := classEntries[key := entry.(validForVTable := c.validForVTable,
                                                 validForMemberVars := c.validForMemberVars)];
    }

    /** The loop body both overloads of `join` share, for one class of the other container. */
    method JoinClass(c: ClassEntry, mode: Mode)
      modifies this`classEntries
      ensures classEntries == JoinedClass(old(classEntries), c, mode)
    {
      var key := GetOrCreateClassEntry(c);
      var entry := classEntries[key];
      entry := entry.(functions := entry.functions + c.functions);
      var vars := entry.variables;
      for n := 0 to |c.variables|
        invariant classEntries == old(classEntries)[key := EntryFor(old(classEntries), c)]
        invariant vars == JoinedVariables(entry.variables, c.variables[..n], mode)
      {
        var v := c.variables[n];
        assert c.variables[..n + 1][..n] == c.variables[..n];
        var found := MemberIndex(vars, v.name);
        if found.Some? {
          var existing := MergeInto(vars[found.value], v, mode);
          vars := vars[found.value := existing];
        } else {
          vars := vars + [v];
        }
      }
      assert c.variables[..|c.variables|] == c.variables;
      classEntries := classEntries[key := entry.(variables := vars)];
      assert classEntries == old(classEntries)[key := entry.(variables := vars)];
    }

    method MergeInto(e: MemberVariable, v: MemberVariable, mode: Mode) returns (existing: MemberVariable)
      ensures existing == MergedVariable(e, v, mode)
    {
      existing := e;
      match mode
      case Plain =>
        existing := v;
      case Versioned(source, info) =>
        if existing.typeName != v.typeName {
          if existing.history == [] && source.Some? {
            var original := Snapshot(existing, source.value);
            existing := existing.(history := Put(existing.history, source.value.baseVersion, original));
          }
          existing := existing.(history := Put(existing.history, info.baseVersion, Snapshot(v, info)));
          existing := existing.(typeName := v.typeName, size := v.size, bits := v.bits);
        } else {
          existing := existing.(offset := v.offset, bits := v.bits);
        }
    }

    method JoinClasses(other: TypeContainer, mode: Mode) returns (ghost order: seq<string>)
      requires other != this
      modifies this`classEntries
      ensures IsOrder(order, other.classEntries)
      ensures classEntries == JoinedTable(old(classEntries), other.classEntries, order, mode)
    {
      order := [];
      var left := other.classEntries.Keys;
      while left != {}
        invariant left <= other.classEntries.Keys
        invariant forall k :: k in order <==> k in other.classEntries.Keys - left
        invariant forall i, j :: 0 <= i < j < |order| ==> order[i] != order[j]
        invariant classEntries == JoinedTable(old(classEntries), other.classEntries, order, mode)
      {
        var k :| k in left;
        assert k !in order;
        JoinClass(other.classEntries[k], mode);
        assert (order + [k])[..|order|] == order;
        order := order + [k];
        left := left - {k};
      }
    }

    /** `join(other)` */
    method Join(other: TypeContainer) returns (ghost order: seq<string>)
      requires other != this
      modifies this
      ensures IsOrder(order, other.classEntries)
      ensures classEntries == JoinedTable(old(classEntries), other.classEntries, order, Plain)
      ensures sourcePdbInfo == if old(sourcePdbInfo).Some? then old(sourcePdbInfo) else other.sourcePdbInfo
    {
      order := JoinClasses(other, Plain);
      if sourcePdbInfo.None? && other.sourcePdbInfo.Some? {
        sourcePdbInfo := other.sourcePdbInfo;
      }
    }

    /** `join(other, other_pdb_info)` */
    method JoinVersioned(other: TypeContainer, info: PdbNameInfo) returns (ghost order: seq<string>)
      requires other != this
      modifies this
      ensures IsOrder(order, other.classEntries)
      ensures classEntries
           == JoinedTable(old(classEntries), other.classEntries, order, Versioned(old(sourcePdbInfo), info))
      ensures sourcePdbInfo == EarliestSource(old(sourcePdbInfo), info)
    {
      order := JoinClasses(other, Versioned(sourcePdbInfo, info));
      if sourcePdbInfo.None? {
        sourcePdbInfo := Some(info);
      } else if info.major < sourcePdbInfo.value.major
          || (info.major == sourcePdbInfo.value.major && info.minor < sourcePdbInfo.value.minor) {
        sourcePdbInfo := Some(info);
      }
    }
  }
}
