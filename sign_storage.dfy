/** `SignStorage`: the registry of MineAuction signs, a map from location to
    sign type, with its projection to a serialisable form (world UUID plus
    coordinates) and the reverse reconstruction. The storage file is an
    abstract value: absent, holding a serialized registry, or truncated. */
module Storage {
  import opened Lang
  import opened Bukkit
  import opened SignTypes

  /** `SignStorage.SimplifiedLocation`: a world UUID and block coordinates. */
  datatype SimplifiedLocation = SimplifiedLocation(world: Uid, x: int, y: int, z: int)

  /** The live registry and its serialisable form. */
  type Registry = map<Location, SignType>
  type Serialized = map<SimplifiedLocation, SignType>

  /** What the storage file holds once it exists: a serialized registry, or
      only the stream header (the file was opened for writing, which
      truncates it, and the registry was never written). */
  datatype StorageFile = Written(contents: Serialized) | Truncated

  /** `new SimplifiedLocation(location.getWorld().getUID(), x, y, z)`. */
  function Simplify(l: Location): SimplifiedLocation
    requires l.world.Some?
  {
    SimplifiedLocation(l.world.value, l.x, l.y, l.z)
  }

  /** The location whose world is the one named by `s`. */
  function Unsimplify(s: SimplifiedLocation): (l: Location)
    ensures l.world.Some? && Simplify(l) == s
  {
    Location(Some(s.world), s.x, s.y, s.z)
  }

  /** `new Location(server.getWorld(s.world), x, y, z)`: the world reference
      is null when no loaded world has that UUID. */
  function Resolve(worlds: set<Uid>, s: SimplifiedLocation): (l: Location)
    ensures s.world in worlds ==> l == Unsimplify(s)
    ensures s.world !in worlds ==> l == Location(None, s.x, s.y, s.z)
  {
    Location(GetWorld(worlds, s.world), s.x, s.y, s.z)
  }

  /** Every registered location has a world reference. */
  predicate AllWorldsPresent(m: Registry) {
    forall l :: l in m ==> l.world.Some?
  }

  /** Every registered location lies in a loaded world. */
  predicate AllWorldsLoaded(m: Registry, worlds: set<Uid>) {
    forall l :: l in m ==> l.world.Some? && l.world.value in worlds
  }

  /** `serializeStorage()`: one serialised entry per live entry; a location
      with a null world raises NullPointerException. */
  function Serialize(m: Registry): (r: Result<Serialized>)
    ensures r.Thrown? <==> !AllWorldsPresent(m)
    ensures r.Thrown? ==> r.error == NullPointer
    ensures r.Ok? ==> forall l :: l in m ==> Simplify(l) in r.value && r.value[Simplify(l)] == m[l]
    ensures r.Ok? ==> forall s :: s in r.value ==> Unsimplify(s) in m
  {
    if AllWorldsPresent(m) then
      Ok(map s | s in (set l | l in m :: Simplify(l)) :: m[Unsimplify(s)])
    else
      Thrown(NullPointer)
  }

  /** `m` is a possible result of `loadSerializedStorage(ser)`: one entry per
      resolved location, each holding the type of an entry that resolves to it
      (the last one the unordered iteration put). Entries whose world is not
      loaded are kept, with a null world. */
  ghost predicate LoadedFrom(m: Registry, ser: Serialized, worlds: set<Uid>) {
    && m.Keys == (set s | s in ser :: Resolve(worlds, s))
    && forall l :: l in m ==> exists s :: s in ser && Resolve(worlds, s) == l && ser[s] == m[l]
  }

  class SignStorage {
    /** `listOfSigns`. */
    var listOfSigns: Registry
    /** `signsstorage.bin` in the plugin's data folder; None while it does not exist. */
    var file: Option<StorageFile>

    /** An empty storage over the current state of its file. */
    constructor (file: Option<StorageFile>)
      ensures listOfSigns == map[] && this.file == file
    {
      listOfSigns := map[];
      this.file := file;
    }

    /** `getSignType`: the type registered at `l`, or null. */
    function GetSignType(l: Location): (r: Option<SignType>)
      reads this
      ensures r.Some? <==> l in listOfSigns
      ensures r.Some? ==> r.value == listOfSigns[l]
    {
      if l in listOfSigns then Some(listOfSigns[l]) else None
    }

    /** `containsItem`: key presence. */
    function ContainsItem(l: Location): (r: bool)
      reads this
      ensures r <==> GetSignType(l).Some?
    {
      l in listOfSigns
    }

    /** `addItem`: puts `t` at `l` and returns the previous mapping. */
    method AddItem(l: Location, t: SignType) returns (previous: Option<SignType>)
      modifies this`listOfSigns
      ensures previous == old(GetSignType(l))
      ensures GetSignType(l) == Some(t)
      ensures listOfSigns == old(listOfSigns)[l := t]
    {
      previous := GetSignType(l);
      listOfSigns := listOfSigns[l := t];
    }

    /** `removeItem`: drops `l` and returns the previous mapping. */
    method RemoveItem(l: Location) returns (previous: Option<SignType>)
      modifies this`listOfSigns
      ensures previous == old(GetSignType(l))
      ensures !ContainsItem(l)
      ensures listOfSigns == old(listOfSigns) - {l}
    {
      previous := GetSignType(l);
      listOfSigns := listOfSigns - {l};
    }

    /** `purge`: the map is empty afterwards; the file is not touched. */
    method Purge()
      modifies this`listOfSigns
      ensures listOfSigns == map[]
    {
      listOfSigns := map[];
    }

    /** `getUnderlyingHashMap`. */
    function GetUnderlyingHashMap(): Registry
      reads this
    {
      listOfSigns
    }

    /** `setUnderlyingHashMap`: all previous contents are replaced. */
    method SetUnderlyingHashMap(m: Registry)
      modifies this`listOfSigns
      ensures listOfSigns == m
    {
      listOfSigns := m;
    }

    /** `serializeStorage`: builds the serialisable map entry by entry. */
    method SerializeStorage() returns (r: Result<Serialized>)
      ensures r == Serialize(listOfSigns)
    {
      var out: Serialized := map[];
      var rest := listOfSigns.Keys;
      while rest != {}
        invariant rest <= listOfSigns.Keys
        invariant forall l :: l in listOfSigns && l !in rest ==> l.world.Some? && Simplify(l) in out && out[Simplify(l)] == listOfSigns[l]
        invariant forall s :: s in out ==> Unsimplify(s) in listOfSigns && Unsimplify(s) !in rest
        decreases rest
      {
        var l :| l in rest;
        if l.world.None? {
          return Thrown(NullPointer);
        }
        out := out[Simplify(l) := listOfSigns[l]];
        rest := rest - {l};
      }
      r := Ok(out);
      assert out == Serialize(listOfSigns).value;
    }

    /** `save`: opening the file truncates it; the registry is written unless
        serialising it raises. Other I/O failures are not modelled. */
    method Save() returns (r: Outcome)
      modifies this`file
      ensures Serialize(listOfSigns).Ok? ==> r == Pass && file == Some(Written(Serialize(listOfSigns).value))
      ensures Serialize(listOfSigns).Thrown? ==> r == Fail(NullPointer) && file == Some(Truncated)
    {
      file := Some(Truncated);
      var s := SerializeStorage();
      match s
      case Ok(v) =>
        file := Some(Written(v));
        r := Pass;
      case Thrown(e) =>
        r := Fail(e);
    }

    /** `loadSerializedStorage`: clears the map, then puts every entry with its
        world resolved against the loaded `worlds`. */
    method LoadSerializedStorage(ser: Serialized, worlds: set<Uid>)
      modifies this`listOfSigns
      ensures LoadedFrom(listOfSigns, ser, worlds)
    {
      listOfSigns := map[];
      var rest := ser.Keys;
      ghost var done: set<SimplifiedLocation> := {};
      while rest != {}
        invariant rest + done == ser.Keys && rest !! done
        invariant listOfSigns.Keys == (set s | s in done :: Resolve(worlds, s))
        invariant forall l :: l in listOfSigns ==> exists s :: s in done && Resolve(worlds, s) == l && ser[s] == listOfSigns[l]
        decreases rest
      {
        var s :| s in rest;
        listOfSigns := listOfSigns[Resolve(worlds, s) := ser[s]];
        rest := rest - {s};
        done := done + {s};
      }
    }

    /** `load`: a readable file replaces the map; an unreadable one (only a
        header) leaves it as it was; a missing file is created by `save`. */
    method Load(worlds: set<Uid>) returns (r: Outcome)
      modifies this
      ensures old(file).None? ==> listOfSigns == old(listOfSigns)
      ensures old(file).None? && Serialize(listOfSigns).Ok? ==> r == Pass && file == Some(Written(Serialize(listOfSigns).value))
      ensures old(file).None? && Serialize(listOfSigns).Thrown? ==> r == Fail(NullPointer) && file == Some(Truncated)
      ensures old(file) == Some(Truncated) ==> listOfSigns == old(listOfSigns) && file == old(file) && r == Pass
      ensures old(file).Some? && old(file).value.Written? ==>
                LoadedFrom(listOfSigns, old(file).value.contents, worlds) && file == old(file) && r == Pass
    {
      match file
      case None =>
        r := Save();
      case Some(Truncated) =>
        r := Pass;
      case Some(Written(contents)) =>
        LoadSerializedStorage(contents, worlds);
        r := Pass;
    }
  }

  /** Round trip: serialising a registry whose worlds are all loaded and
      loading the result gives back the same registry. */
  lemma RoundTrip(m: Registry, worlds: set<Uid>, loaded: Registry)
    requires AllWorldsLoaded(m, worlds)
    requires Serialize(m).Ok? && LoadedFrom(loaded, Serialize(m).value, worlds)
    ensures loaded == m
  {
    var ser := Serialize(m).value;
    forall s | s in ser ensures Resolve(worlds, s) == Unsimplify(s) {
      assert Unsimplify(s) in m;
    }
    forall l | l in m ensures l in loaded && loaded[l] == m[l] {
      assert Resolve(worlds, Simplify(l)) == l;
      var s :| s in ser && Resolve(worlds, s) == l && ser[s] == loaded[l];
      assert s == Simplify(l);
    }
    forall l | l in loaded ensures l in m {
      var s :| s in ser && Resolve(worlds, s) == l && ser[s] == loaded[l];
    }
  }

  /** When every serialized world is loaded the load is deterministic: each
      entry comes back at its own location with its own type. */
  lemma LoadResolved(ser: Serialized, worlds: set<Uid>, loaded: Registry)
    requires forall s :: s in ser ==> s.world in worlds
    requires LoadedFrom(loaded, ser, worlds)
    ensures forall s :: s in ser ==> Unsimplify(s) in loaded && loaded[Unsimplify(s)] == ser[s]
    ensures forall l :: l in loaded ==> l.world.Some? && Simplify(l) in ser
  {
    forall s | s in ser ensures Unsimplify(s) in loaded && loaded[Unsimplify(s)] == ser[s] {
      assert Resolve(worlds, s) == Unsimplify(s);
      var s' :| s' in ser && Resolve(worlds, s') == Unsimplify(s) && ser[s'] == loaded[Unsimplify(s)];
      assert Resolve(worlds, s') == Unsimplify(s');
    }
  }

  /** An entry whose world is not loaded is not dropped: its coordinates stay
      registered under a null world. */
  lemma UnresolvedKept(ser: Serialized, worlds: set<Uid>, loaded: Registry, s: SimplifiedLocation)
    requires LoadedFrom(loaded, ser, worlds)
    requires s in ser && s.world !in worlds
    ensures Location(None, s.x, s.y, s.z) in loaded
    ensures !AllWorldsPresent(loaded) && Serialize(loaded).Thrown?
  {
    assert Resolve(worlds, s) == Location(None, s.x, s.y, s.z);
  }

  /** The serialised registry has exactly as many entries as the live one. */
  lemma SerializePreservesSize(m: Registry)
    requires AllWorldsPresent(m)
    ensures |Serialize(m).value| == |m|
  {
    var ser := Serialize(m).value;
    assert ser.Keys == (set l | l in m.Keys :: Simplify(l));
    SimplifyImageSize(m.Keys);
  }

  lemma {:induction false} SimplifyImageSize(ls: set<Location>)
    requires forall l :: l in ls ==> l.world.Some?
    ensures |(set l | l in ls :: Simplify(l))| == |ls|
    decreases |ls|
  {
    if ls != {} {
      var l :| l in ls;
      var rest := ls - {l};
      SimplifyImageSize(rest);
      var img := set k | k in ls :: Simplify(k);
      var imgRest := set k | k in rest :: Simplify(k);
      assert img == imgRest + {Simplify(l)};
      assert Simplify(l) !in imgRest;
    }
  }
}
