/** The list of loaded mods under hot reload (UE4SS/src/UE4SSProgram.cpp). */
module ModList {
  import opened Text

  const INVALID_MOD_ID: nat := 0

  datatype Entry = Entry(id: nat, name: string, isLua: bool)

  /** The list and the counter that the next mod takes its id from. */
  datatype State = State(mods: seq<Entry>, nextId: nat)

  const EMPTY := State([], 1)

  datatype Action = Install(name: string, isLua: bool) | Reinstall(id: nat) | Uninstall(id: nat) | UninstallAll

  // ----- what the operations compute -----

  function Without<T>(items: seq<T>, i: nat): seq<T>
    requires i < |items|
  {
    items[..i] + items[i + 1..]
  }

  function ModIndex(mods: seq<Entry>, id: nat): (r: Option<nat>)
    ensures r.Some? ==> r.value < |mods| && mods[r.value].id == id
    ensures r.Some? ==> forall j :: 0 <= j < r.value ==> mods[j].id != id
    ensures r.None? ==> forall m <- mods :: m.id != id
  {
    if mods == [] then None
    else if mods[0].id == id then Some(0)
    else match ModIndex(mods[1..], id) { case None => None case Some(i) => Some(i + 1) }
  }

  /** The first entry with the id, provided it is a Lua mod. */
  function LuaIndex(mods: seq<Entry>, id: nat): (r: Option<nat>)
    ensures r.Some? ==> r.value < |mods| && mods[r.value].id == id && mods[r.value].isLua && id != INVALID_MOD_ID
  {
    if id == INVALID_MOD_ID then None
    else match ModIndex(mods, id)
      case None => None
      case Some(i) => if mods[i].isLua then Some(i) else None
  }

  /** Entry `i` is the first with the id. */
  predicate IsFirstWithId(mods: seq<Entry>, id: nat, i: nat) {
    i < |mods| && mods[i].id == id && forall j :: 0 <= j < i ==> mods[j].id != id
  }

  /** A Lua mod is found exactly when the first entry with the id is one. */
  lemma LuaIndexIff(mods: seq<Entry>, id: nat)
    ensures LuaIndex(mods, id).Some? <==> id != 0 && exists i: nat :: IsFirstWithId(mods, id, i) && mods[i].isLua
  {
    match ModIndex(mods, id)
    case Some(i) =>
      assert IsFirstWithId(mods, id, i);
      assert forall j: nat :: IsFirstWithId(mods, id, j) ==> j == i;
    case None => assert forall i :: 0 <= i < |mods| ==> mods[i] in mods;
  }

  function Step(s: State, a: Action): State {
    match a
    case Install(name, isLua) => State(s.mods + [Entry(s.nextId, name, isLua)], s.nextId + 1)
    case Reinstall(id) => (
      match LuaIndex(s.mods, id)
      case None => s
      case Some(i) => State(Without(s.mods, i) + [Entry(s.nextId, s.mods[i].name, true)], s.nextId + 1))
    case Uninstall(id) => (
      match LuaIndex(s.mods, id)
      case None => s
      case Some(i) => s.(mods := Without(s.mods, i)))
    case UninstallAll => s.(mods := [])
  }

  ghost predicate Valid(s: State) {
    && s.nextId > INVALID_MOD_ID
    && (forall m <- s.mods :: INVALID_MOD_ID < m.id < s.nextId)
    && (forall i, j :: 0 <= i < j < |s.mods| ==> s.mods[i].id != s.mods[j].id)
  }

  // ----- the operations -----

  class Mod {
    const id: nat
    const name: string
    const isLua: bool

    constructor (id: nat, name: string, isLua: bool)
      ensures this.id == id && this.name == name && this.isLua == isLua
    {
      this.id, this.name, this.isLua := id, name, isLua;
    }
  }

  function View(mods: seq<Mod>): seq<Entry> {
    seq(|mods|, i requires 0 <= i < |mods| => Entry(mods[i].id, mods[i].name, mods[i].isLua))
  }

  /** The pointer found by id occurs nowhere before the place it was found at. */
  lemma FirstWithId(mods: seq<Mod>, id: nat)
    requires LuaIndex(View(mods), id).Some?
    ensures var at := LuaIndex(View(mods), id).value;
            mods[at] !in mods[..at] && View(Without(mods, at)) == Without(View(mods), at)
  {
    var view, at := View(mods), LuaIndex(View(mods), id).value;
    forall j | 0 <= j < at ensures mods[j] != mods[at] {
      assert view[j].id != id && view[j].id == mods[j].id;
    }
  }

  class Program {
    var mods: seq<Mod>
    var nextModId: nat

    ghost function Current(): State
      reads this
    {
      State(View(mods), nextModId)
    }

    constructor ()
      ensures Current() == EMPTY && mods == [] && nextModId == 1
    {
      mods, nextModId := [], 1;
    }

    method FindModById(id: nat) returns (r: Mod?)
      ensures r == null <==> id == INVALID_MOD_ID || ModIndex(View(mods), id).None?
      ensures r != null ==> r == mods[ModIndex(View(mods), id).value]
      ensures id == 0 ==> r == null
    {
      if id == INVALID_MOD_ID { return null; }
      ghost var view := View(mods);
      for i := 0 to |mods|
        invariant forall j :: 0 <= j < i ==> view[j].id != id
      {
        if mods[i].id == id {
          assert view[i].id == id && view[i] in view;
          return mods[i];
        }
      }
      return null;
    }

    /** Nothing is found for id 0, for an unused id, or when the first mod with
        the id is no Lua mod. */
    method FindLuaModById(id: nat) returns (r: Mod?)
      ensures r == null <==> LuaIndex(View(mods), id).None?
      ensures r != null ==> r == mods[LuaIndex(View(mods), id).value] && r.isLua
      ensures r != null <==> id != 0 && exists i: nat :: IsFirstWithId(View(mods), id, i) && View(mods)[i].isLua
    {
      LuaIndexIff(View(mods), id);
      r := FindModById(id);
      if r != null && !r.isLua { r := null; }
    }

    /** Erases the first pointer equal to `mod`, if there is one. */
    method DeleteMod(mod: Mod)
      modifies this`mods
      ensures mod !in old(mods) ==> mods == old(mods)
      ensures forall at :: 0 <= at < |old(mods)| && old(mods)[at] == mod && mod !in old(mods)[..at]
                 ==> mods == Without(old(mods), at)
    {
      for it := 0 to |mods|
        invariant mods == old(mods) && mod !in mods[..it]
      {
        if mods[it] == mod {
          mods := mods[..it] + mods[it + 1..];
          return;
        }
      }
    }

    method InstallMod(name: string, isLua: bool)
      modifies this
      ensures Current() == Step(old(Current()), Install(name, isLua))
    {
      var mod := new Mod(nextModId, name, isLua);
      nextModId := nextModId + 1;
      mods := mods + [mod];
    }

    method ReinstallMod(id: nat)
      requires Valid(Current())
      modifies this
      ensures Current() == Step(old(Current()), Reinstall(id))
    {
      if id == INVALID_MOD_ID { return; }
      var mod := FindLuaModById(id);
      if mod != null {
        FirstWithId(mods, id);
        var name := mod.name;
        DeleteMod(mod);
        InstallMod(name, true);
      }
    }

    method UninstallMod(id: nat)
      requires Valid(Current())
      modifies this
      ensures Current() == Step(old(Current()), Uninstall(id))
    {
      if id == INVALID_MOD_ID { return; }
      var mod := FindLuaModById(id);
      if mod != null {
        FirstWithId(mods, id);
        DeleteMod(mod);
      }
    }

    method UninstallMods()
      modifies this`mods
      ensures Current() == Step(old(Current()), UninstallAll)
    {
      mods := [];
    }
  }

  // ----- whole runs -----

  function Run(s: State, actions: seq<Action>): State
    decreases |actions|
  {
    if actions == [] then s else Run(Step(s, actions[0]), actions[1..])
  }

  predicate Listed(s: State, id: nat) {
    exists m <- s.mods :: m.id == id
  }

  lemma StepKeepsValid(s: State, a: Action)
    requires Valid(s)
    ensures Valid(Step(s, a)) && Step(s, a).nextId >= s.nextId
  {}

  /** Ids stay distinct in every run. */
  lemma {:induction false} RunKeepsValid(s: State, actions: seq<Action>)
    requires Valid(s)
    ensures Valid(Run(s, actions)) && Run(s, actions).nextId >= s.nextId
    decreases |actions|
  {
    if actions != [] {
      StepKeepsValid(s, actions[0]);
      RunKeepsValid(Step(s, actions[0]), actions[1..]);
    }
  }

  lemma RunsFromStartAreValid(actions: seq<Action>)
    ensures Valid(Run(EMPTY, actions))
  {
    RunKeepsValid(EMPTY, actions);
  }

  /** An id that has been given out and is gone never comes back, so a request
      that still carries it changes nothing, however late it is executed. */
  lemma {:induction false} RemovedIdsStayRemoved(s: State, actions: seq<Action>, id: nat)
    requires Valid(s) && id < s.nextId && !Listed(s, id)
    ensures !Listed(Run(s, actions), id)
    ensures Step(Run(s, actions), Reinstall(id)) == Step(Run(s, actions), Uninstall(id)) == Run(s, actions)
    decreases |actions|
  {
    if actions != [] {
      var t := Step(s, actions[0]);
      StepKeepsValid(s, actions[0]);
      assert forall m <- t.mods :: m in s.mods || m.id == s.nextId;
      RemovedIdsStayRemoved(t, actions[1..], id);
    }
  }

  /** Some listed Lua mod has the id. */
  predicate NamesLuaMod(s: State, id: nat) {
    exists m <- s.mods :: m.id == id && m.isLua
  }

  lemma NamedIsFound(s: State, id: nat)
    requires Valid(s)
    ensures LuaIndex(s.mods, id).Some? <==> NamesLuaMod(s, id)
  {
    if m :| m in s.mods && m.id == id && m.isLua {
      var i :| 0 <= i < |s.mods| && s.mods[i] == m;
      assert ModIndex(s.mods, id) == Some(i);
    }
  }

  /** Both requests take the id they name off the list exactly when it is that of
      a listed Lua mod, and change nothing otherwise. */
  lemma RequestsRemoveIff(s: State, id: nat)
    requires Valid(s)
    ensures Listed(s, id) && !Listed(Step(s, Reinstall(id)), id) <==> NamesLuaMod(s, id)
    ensures Listed(s, id) && !Listed(Step(s, Uninstall(id)), id) <==> NamesLuaMod(s, id)
    ensures !NamesLuaMod(s, id) ==> Step(s, Reinstall(id)) == Step(s, Uninstall(id)) == s
  {
    NamedIsFound(s, id);
    if NamesLuaMod(s, id) {
      var i := LuaIndex(s.mods, id).value;
      forall m | m in Without(s.mods, i) ensures m.id != id {
        var j :| 0 <= j < |s.mods| && j != i && s.mods[j] == m;
      }
    }
  }

  /** Every mod goes, and the next one gets a new id all the same. */
  lemma UninstallAllEmpties(s: State)
    ensures Step(s, UninstallAll).mods == [] && Step(s, UninstallAll).nextId == s.nextId
  {}

  /** Mods installed one after another are listed in that order behind the mods
      there were, under consecutive ids. */
  lemma {:induction false} InstallsInOrder(s: State, actions: seq<Action>)
    requires forall a <- actions :: a.Install?
    ensures var mods := Run(s, actions).mods;
      |mods| == |s.mods| + |actions| && s.mods <= mods && Run(s, actions).nextId == s.nextId + |actions|
    ensures forall i :: 0 <= i < |actions| ==>
      Run(s, actions).mods[|s.mods| + i] == Entry(s.nextId + i, actions[i].name, actions[i].isLua)
    decreases |actions|
  {
    if actions != [] {
      assert actions[0].Install? && forall a <- actions[1..] :: a in actions;
      InstallsInOrder(Step(s, actions[0]), actions[1..]);
      forall i | 0 < i < |actions|
        ensures Run(s, actions).mods[|s.mods| + i] == Entry(s.nextId + i, actions[i].name, actions[i].isLua)
      {
        assert actions[i] == actions[1..][i - 1];
      }
    }
  }

  /** The listed mods whose ids are in `keep`, in list order. */
  function Only(mods: seq<Entry>, keep: set<nat>): seq<Entry> {
    if mods == [] then []
    else Only(mods[..|mods| - 1], keep) + (if mods[|mods| - 1].id in keep then [mods[|mods| - 1]] else [])
  }

  predicate Touches(a: Action, keep: set<nat>) {
    match a
    case Install(_, _) => false
    case Reinstall(id) => id in keep
    case Uninstall(id) => id in keep
    case UninstallAll => true
  }

  /** Mods that no request of the run names keep their place among each other. */
  lemma {:induction false} UntouchedKeepOrder(s: State, actions: seq<Action>, keep: set<nat>)
    requires Valid(s) && forall id <- keep :: id < s.nextId
    requires forall a <- actions :: !Touches(a, keep)
    ensures Only(Run(s, actions).mods, keep) == Only(s.mods, keep)
    decreases |actions|
  {
    if actions != [] {
      var a := actions[0];
      var t := Step(s, a);
      StepKeepsValid(s, a);
      assert !Touches(a, keep);
      StepKeepsOrder(s, a, keep);
      UntouchedKeepOrder(t, actions[1..], keep);
    }
  }

  lemma StepKeepsOrder(s: State, a: Action, keep: set<nat>)
    requires Valid(s) && (forall id <- keep :: id < s.nextId) && !Touches(a, keep)
    ensures Only(Step(s, a).mods, keep) == Only(s.mods, keep)
  {
    match a
    case Install(name, isLua) =>
      OnlyAppend(s.mods, [Entry(s.nextId, name, isLua)], keep);
    case Reinstall(id) =>
      var at := LuaIndex(s.mods, id);
      if at.Some? {
        OnlyWithout(s.mods, at.value, keep);
        OnlyAppend(Without(s.mods, at.value), [Entry(s.nextId, s.mods[at.value].name, true)], keep);
      }
    case Uninstall(id) =>
      var at := LuaIndex(s.mods, id);
      if at.Some? { OnlyWithout(s.mods, at.value, keep); }
  }

  lemma {:induction false} OnlyAppend(a: seq<Entry>, b: seq<Entry>, keep: set<nat>)
    ensures Only(a + b, keep) == Only(a, keep) + Only(b, keep)
  {
    if b == [] {
      assert a + b == a;
    } else {
      assert (a + b)[..|a + b| - 1] == a + b[..|b| - 1];
      OnlyAppend(a, b[..|b| - 1], keep);
    }
  }

  lemma OnlyWithout(mods: seq<Entry>, i: nat, keep: set<nat>)
    requires i < |mods| && mods[i].id !in keep
    ensures Only(Without(mods, i), keep) == Only(mods, keep)
  {
    assert mods == mods[..i] + [mods[i]] + mods[i + 1..];
    OnlyAppend(mods[..i] + [mods[i]], mods[i + 1..], keep);
    OnlyAppend(mods[..i], [mods[i]], keep);
    OnlyAppend(mods[..i], mods[i + 1..], keep);
    assert Only([mods[i]], keep) == [];
  }

  // ----- names -----

  function NameList(mods: seq<Entry>): seq<string> {
    seq(|mods|, i requires 0 <= i < |mods| => mods[i].name)
  }

  function Names(mods: seq<Entry>): multiset<string> { multiset(NameList(mods)) }

  lemma NamesAppend(a: seq<Entry>, b: seq<Entry>)
    ensures Names(a + b) == Names(a) + Names(b)
  {
    assert NameList(a + b) == NameList(a) + NameList(b);
  }

  lemma NamesWithout(mods: seq<Entry>, i: nat)
    requires i < |mods|
    ensures Names(mods) == Names(Without(mods, i)) + multiset{mods[i].name}
  {
    var names := NameList(mods);
    assert NameList(Without(mods, i)) == names[..i] + names[i + 1..];
    assert names == names[..i] + [names[i]] + names[i + 1..];
  }

  lemma ReinstallKeepsNames(s: State, id: nat)
    ensures Names(Step(s, Reinstall(id)).mods) == Names(s.mods)
    ensures |Step(s, Reinstall(id)).mods| == |s.mods|
  {
    var at := LuaIndex(s.mods, id);
    if at.Some? {
      var again := Entry(s.nextId, s.mods[at.value].name, true);
      NamesWithout(s.mods, at.value);
      NamesAppend(Without(s.mods, at.value), [again]);
      assert NameList([again]) == [again.name];
    }
  }

  /** An uninstall takes away one copy of the name of the mod it names, if that
      is a Lua mod. */
  lemma UninstallTakesName(s: State, id: nat)
    requires Valid(s)
    ensures forall m <- s.mods | m.id == id && m.isLua ::
      Names(s.mods) == Names(Step(s, Uninstall(id)).mods) + multiset{m.name}
    ensures !NamesLuaMod(s, id) ==> Names(Step(s, Uninstall(id)).mods) == Names(s.mods)
  {
    NamedIsFound(s, id);
    var at := LuaIndex(s.mods, id);
    if at.Some? {
      NamesWithout(s.mods, at.value);
      forall m <- s.mods | m.id == id && m.isLua ensures m == s.mods[at.value] {
        var j :| 0 <= j < |s.mods| && s.mods[j] == m;
      }
    }
  }

  /** Any number of reinstalls leaves the same names loaded. */
  lemma {:induction false} ReinstallsKeepNames(s: State, actions: seq<Action>)
    requires forall a <- actions :: a.Reinstall?
    ensures Names(Run(s, actions).mods) == Names(s.mods)
    ensures |Run(s, actions).mods| == |s.mods|
    decreases |actions|
  {
    if actions != [] {
      assert actions[0].Reinstall? && forall a <- actions[1..] :: a in actions;
      ReinstallKeepsNames(s, actions[0].id);
      ReinstallsKeepNames(Step(s, actions[0]), actions[1..]);
    }
  }

  function Others(mods: seq<Entry>, id: nat): set<nat> {
    set m <- mods | m.id != id :: m.id
  }

  /** A reinstalled mod is last, with its name and an id never used before; the
      others stand before it as they stood. */
  lemma ReinstallMovesToEnd(s: State, m: Entry)
    requires Valid(s) && m in s.mods && m.isLua
    ensures var again := Entry(s.nextId, m.name, true);
            && Step(s, Reinstall(m.id)).mods == Only(s.mods, Others(s.mods, m.id)) + [again]
            && Step(s, Reinstall(m.id)).nextId == s.nextId + 1
            && !Listed(s, again.id)
  {
    NamedIsFound(s, m.id);
    var i := LuaIndex(s.mods, m.id).value;
    var keep := Others(s.mods, m.id);
    forall j | 0 <= j < |s.mods| && j != i ensures s.mods[j].id in keep {
      assert s.mods[j] in s.mods;
    }
    OnlyWithout(s.mods, i, keep);
    OthersRemain(s.mods, i, keep);
    OnlyAll(Without(s.mods, i), keep);
  }

  lemma OthersRemain(mods: seq<Entry>, i: nat, keep: set<nat>)
    requires i < |mods| && forall j :: 0 <= j < |mods| && j != i ==> mods[j].id in keep
    ensures forall m <- Without(mods, i) :: m.id in keep
  {}

  lemma {:induction false} OnlyAll(mods: seq<Entry>, keep: set<nat>)
    requires forall m <- mods :: m.id in keep
    ensures Only(mods, keep) == mods
  {
    if mods != [] {
      var front, last := mods[..|mods| - 1], mods[|mods| - 1];
      assert last in mods && mods == front + [last];
      OnlyAll(front, keep);
    }
  }
}
