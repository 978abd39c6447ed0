/** The bulk validation of every registered sign: `IterativeValidation`,
    `iterateOverStorage` and `validateAll`. The corrected versions are the
    ones the rest of the model uses; the `...AsWritten` members model the
    code as it stands, and the lemmas beside them exhibit where it fails. */
module Validation {
  import opened Lang
  import opened Bukkit
  import opened SignTypes
  import opened Storage
  import opened MineAuctionSign

  /** The block a location with a world designates. */
  function PosOf(l: Location): (p: Pos)
    requires l.world.Some?
    ensures LocationOf(p) == l
  {
    BlockOf(l).value
  }

  /** The registered location `l` still holds a sign. */
  predicate Stands(w: Blocks, l: Location) {
    l.world.Some? && IsSignAt(w, PosOf(l))
  }

  /** The entries of `visited` whose block is no longer a sign. */
  function Invalid(visited: set<Location>, w: Blocks): set<Location> {
    set l | l in visited && l.world.Some? && !IsSignAt(w, PosOf(l))
  }

  /** Type `t` has the four configured lines that `format` writes. */
  predicate Formattable(t: SignType, settings: Settings) {
    var conf := ConfiguredFormatting(t, settings);
    conf.Ok? && |conf.value| >= 4
  }

  /** `isCorrectlyFormatted` answers false (rather than raising). */
  predicate WrongLines(lines: seq<string>, t: SignType, settings: Settings)
    requires |lines| == 4
  {
    var conf := ConfiguredFormatting(t, settings);
    conf.Ok? && FormatCheck(lines, conf.value) == Ok(false)
  }

  /** The entries of `visited` that hold a sign showing other lines than
      the configured ones. */
  function Misformatted(visited: set<Location>, reg: Registry, w: Blocks, settings: Settings): set<Location>
    requires FourLines(w)
  {
    set l | l in visited && l in reg && Stands(w, l) && WrongLines(w[PosOf(l)].lines, reg[l], settings)
  }

  /** The world once `format` has rewritten the sign of every entry of
      `visited`. */
  function Reformatted(w: Blocks, reg: Registry, visited: set<Location>, settings: Settings): Blocks {
    map p | p in w ::
      if LocationOf(p) in visited && LocationOf(p) in reg && w[p].IsSign() && Formattable(reg[LocationOf(p)], settings)
      then w[p].WithLines(ConfiguredFormatting(reg[LocationOf(p)], settings).value[..4])
      else w[p]
  }

  /** Reformatting keeps every block where it is and a sign a sign. */
  lemma ReformattedShape(w: Blocks, reg: Registry, visited: set<Location>, settings: Settings)
    requires FourLines(w)
    ensures var v := Reformatted(w, reg, visited, settings);
      && v.Keys == w.Keys
      && FourLines(v)
      && forall p :: IsSignAt(v, p) <==> IsSignAt(w, p)
  {
    var v := Reformatted(w, reg, visited, settings);
    forall p | p in w
      ensures v[p].IsSign() <==> w[p].IsSign()
      ensures v[p].IsSign() ==> |v[p].lines| == 4
    {
    }
  }

  /** Visiting a standing sign rewrites exactly that sign. */
  lemma ReformattedStep(w: Blocks, reg: Registry, visited: set<Location>, settings: Settings, l: Location)
    requires l !in visited && l in reg && Stands(w, l) && Formattable(reg[l], settings)
    ensures Reformatted(w, reg, visited + {l}, settings) ==
      Reformatted(w, reg, visited, settings)[PosOf(l) := w[PosOf(l)].WithLines(ConfiguredFormatting(reg[l], settings).value[..4])]
  {
    var p := PosOf(l);
    var a := Reformatted(w, reg, visited + {l}, settings);
    var b := Reformatted(w, reg, visited, settings)[p := w[p].WithLines(ConfiguredFormatting(reg[l], settings).value[..4])];
    forall q | q in w
      ensures a[q] == b[q]
    {
      if q != p {
        assert LocationOf(q) != l;
      }
    }
    assert a.Keys == b.Keys;
  }

  /** Visiting a location that holds no sign rewrites nothing. */
  lemma ReformattedSkip(w: Blocks, reg: Registry, visited: set<Location>, settings: Settings, l: Location)
    requires l.world.Some? && !Stands(w, l)
    ensures Reformatted(w, reg, visited + {l}, settings) == Reformatted(w, reg, visited, settings)
  {
    var a := Reformatted(w, reg, visited + {l}, settings);
    var b := Reformatted(w, reg, visited, settings);
    forall q | q in w
      ensures a[q] == b[q]
    {
      if LocationOf(q) == l {
        assert q == PosOf(l);
      }
    }
  }

  /** After a forced validation every standing sign is correctly
      formatted. */
  lemma ReformattedIsCorrect(w: Blocks, reg: Registry, settings: Settings, l: Location)
    requires FourLines(w)
    requires l in reg && Stands(w, l) && Formattable(reg[l], settings)
    ensures var v := Reformatted(w, reg, reg.Keys, settings);
      PosOf(l) in v && v[PosOf(l)].IsSign()
      && FormatCheck(v[PosOf(l)].lines, ConfiguredFormatting(reg[l], settings).value) == Ok(true)
  {
    var conf := ConfiguredFormatting(reg[l], settings).value;
    var p := PosOf(l);
    var v := Reformatted(w, reg, reg.Keys, settings);
    assert v[p] == w[p].WithLines(conf[..4]);
    OverwriteComplete(w[p].lines, conf);
    FormattedIsCorrect(w[p].lines, conf);
  }

  /** A second validation right after one that removed the invalid entries
      and forced the formatting finds nothing invalid and nothing wrongly
      formatted. */
  lemma RevalidationFindsNothing(reg: Registry, w: Blocks, settings: Settings)
    requires FourLines(w)
    requires forall l :: l in reg ==> Formattable(reg[l], settings)
    ensures var kept := reg - Invalid(reg.Keys, w);
      var v := Reformatted(w, reg, reg.Keys, settings);
      FourLines(v)
      && Invalid(kept.Keys, v) == {}
      && Misformatted(kept.Keys, kept, v, settings) == {}
  {
    var kept := reg - Invalid(reg.Keys, w);
    var v := Reformatted(w, reg, reg.Keys, settings);
    ReformattedShape(w, reg, reg.Keys, settings);
    forall l | l in kept && l.world.Some?
      ensures IsSignAt(v, PosOf(l))
      ensures !WrongLines(v[PosOf(l)].lines, kept[l], settings)
    {
      assert l !in Invalid(reg.Keys, w);
      ReformattedIsCorrect(w, reg, settings, l);
    }
    assert Invalid(kept.Keys, v) == {};
  }

  /** Visiting a standing sign leaves the invalid entries as they were and
      counts the sign if its lines are wrong. */
  lemma VisitStanding(done: set<Location>, l: Location, reg: Registry, w: Blocks, settings: Settings)
    requires FourLines(w) && l !in done && l in reg && Stands(w, l)
    ensures Invalid(done + {l}, w) == Invalid(done, w)
    ensures l !in Invalid(done, w)
    ensures |Misformatted(done + {l}, reg, w, settings)| ==
      |Misformatted(done, reg, w, settings)| + if WrongLines(w[PosOf(l)].lines, reg[l], settings) then 1 else 0
  {
    if WrongLines(w[PosOf(l)].lines, reg[l], settings) {
      assert Misformatted(done + {l}, reg, w, settings) == Misformatted(done, reg, w, settings) + {l};
    } else {
      assert Misformatted(done + {l}, reg, w, settings) == Misformatted(done, reg, w, settings);
    }
  }

  /** Visiting a location whose sign is gone counts it as invalid and
      nothing else. */
  lemma VisitFallen(done: set<Location>, l: Location, reg: Registry, w: Blocks, settings: Settings)
    requires FourLines(w) && l !in done && l.world.Some? && !Stands(w, l)
    ensures |Invalid(done + {l}, w)| == |Invalid(done, w)| + 1
    ensures reg - Invalid(done + {l}, w) == (reg - Invalid(done, w)) - {l}
    ensures Misformatted(done + {l}, reg, w, settings) == Misformatted(done, reg, w, settings)
    ensures Reformatted(w, reg, done + {l}, settings) == Reformatted(w, reg, done, settings)
  {
    assert Invalid(done + {l}, w) == Invalid(done, w) + {l};
    ReformattedSkip(w, reg, done, settings, l);
  }

  /** `IterativeValidation`: the step `validateAll` applies to each
      standing sign. It counts the signs whose lines differ from the
      configured ones (when `checkFormatting`) and rewrites them (when
      `forceCorrectFormat`). */
  class IterativeValidation {
    const checkFormatting: bool
    const forceCorrectFormat: bool
    const settings: Settings
    /** The count `validateAll` reports as its third result. */
    var misformatted: nat

    constructor (checkFormatting: bool, forceCorrectFormat: bool, settings: Settings)
      ensures this.checkFormatting == checkFormatting && this.forceCorrectFormat == forceCorrectFormat
      ensures this.settings == settings && misformatted == 0
    {
      this.checkFormatting := checkFormatting;
      this.forceCorrectFormat := forceCorrectFormat;
      this.settings := settings;
      misformatted := 0;
    }

    /** `call()` on the sign at `p`, registered as type `t`. */
    method Call(server: Server, p: Pos, t: SignType) returns (r: Outcome)
      requires server.Valid() && IsSignAt(server.blocks, p)
      modifies this`misformatted, server`blocks
      ensures server.Valid()
      ensures var lines := old(server.blocks[p].lines);
        var conf := ConfiguredFormatting(t, settings);
        var checkFails := checkFormatting && (conf.Thrown? || FormatCheck(lines, conf.value).Thrown?);
        && misformatted == old(misformatted) + (if checkFormatting && WrongLines(lines, t, settings) then 1 else 0)
        && (checkFails ==> r == Fail(IndexOutOfBounds) && server.blocks == old(server.blocks))
        && (!checkFails && !forceCorrectFormat ==> r == Pass && server.blocks == old(server.blocks))
        && (!checkFails && forceCorrectFormat && conf.Thrown? ==> r == Fail(conf.error) && server.blocks == old(server.blocks))
        && (!checkFails && forceCorrectFormat && conf.Ok? ==>
              && server.blocks == old(server.blocks)[p := old(server.blocks[p]).WithLines(Overwrite(lines, conf.value))]
              && r == if |conf.value| >= 4 then Pass else Fail(IndexOutOfBounds))
      ensures (checkFormatting || forceCorrectFormat) && Formattable(t, settings) ==> r == Pass
      ensures r.Fail? ==> r.error == IndexOutOfBounds && !Formattable(t, settings)
      ensures r == Pass && forceCorrectFormat ==>
        && Formattable(t, settings)
        && server.blocks == old(server.blocks)[p := old(server.blocks[p]).WithLines(ConfiguredFormatting(t, settings).value[..4])]
      ensures r == Pass && !forceCorrectFormat ==> server.blocks == old(server.blocks)
      ensures r == Pass && forceCorrectFormat ==>
        var conf := ConfiguredFormatting(t, settings);
        conf.Ok? && FormatCheck(server.blocks[p].lines, conf.value) == Ok(true)
    {
      ghost var conf := ConfiguredFormatting(t, settings);
      if conf.Ok? {
        FormatCheckSpec(server.blocks[p].lines, conf.value);
      }
      if checkFormatting {
        var correct := IsCorrectlyFormatted(server.blocks[p].lines, t, settings);
        if correct.Thrown? {
          return Fail(correct.error);
        }
        if !correct.value {
          misformatted := misformatted + 1;
          if forceCorrectFormat {
            r := FormatSign(server, p, t, settings);
          } else {
            r := Pass;
          }
          if r == Pass && forceCorrectFormat {
            FormattedIsCorrect(old(server.blocks[p].lines), conf.value);
            OverwriteComplete(old(server.blocks[p].lines), conf.value);
          }
          return;
        }
      }
      if forceCorrectFormat {
        r := FormatSign(server, p, t, settings);
        if r == Pass {
          FormattedIsCorrect(old(server.blocks[p].lines), conf.value);
          OverwriteComplete(old(server.blocks[p].lines), conf.value);
        }
      } else {
        r := Pass;
      }
    }
  }

  /** The state of a validation that has visited the entries `done` of the
      registry `reg0` in the world `w0`: the live registry `reg`, the world
      `w`, the callable's count and the invalid count. */
  predicate Visited(reg: Registry, w: Blocks, misformatted: int, invalid: int,
                    reg0: Registry, w0: Blocks, m0: int, done: set<Location>,
                    removeInvalid: bool, callable: (bool, bool, Settings))
    requires FourLines(w0)
  {
    var (check, force, settings) := callable;
    && done <= reg0.Keys
    && (forall l :: l in done ==> l.world.Some?)
    && invalid == |Invalid(done, w0)|
    && reg == (if removeInvalid then reg0 - Invalid(done, w0) else reg0)
    && misformatted == m0 + (if check then |Misformatted(done, reg0, w0, settings)| else 0)
    && w == (if force then Reformatted(w0, reg0, done, settings) else w0)
  }

  /** Before the first entry nothing has changed. */
  lemma VisitedNothing(reg0: Registry, w0: Blocks, m0: int, removeInvalid: bool, callable: (bool, bool, Settings))
    requires FourLines(w0)
    ensures Visited(reg0, w0, m0, 0, reg0, w0, m0, {}, removeInvalid, callable)
  {
    assert Reformatted(w0, reg0, {}, callable.2) == w0;
  }

  /** One pass of the loop of `iterateOverStorage`, on the entry `l`: a
      standing sign goes to the callable, any other entry is counted and,
      when `removeInvalid`, removed. */
  method Visit(storage: SignStorage, removeInvalid: bool, callable: IterativeValidation, server: Server,
               l: Location, invalid: int, ghost reg0: Registry, ghost w0: Blocks, ghost m0: int, ghost done: set<Location>)
    returns (r: Result<int>)
    requires FourLines(w0) && server.Valid()
    requires l in reg0 && l !in done
    requires Visited(storage.listOfSigns, server.blocks, callable.misformatted, invalid, reg0, w0, m0, done,
                     removeInvalid, (callable.checkFormatting, callable.forceCorrectFormat, callable.settings))
    modifies storage`listOfSigns, callable`misformatted, server`blocks
    ensures server.Valid()
    ensures r.Ok? ==>
      Visited(storage.listOfSigns, server.blocks, callable.misformatted, r.value, reg0, w0, m0, done + {l},
              removeInvalid, (callable.checkFormatting, callable.forceCorrectFormat, callable.settings))
    ensures r.Thrown? ==>
      || (r.error == NullPointer && !AllWorldsPresent(reg0))
      || (r.error == IndexOutOfBounds && exists k :: k in reg0 && !Formattable(reg0[k], callable.settings))
    ensures AllWorldsPresent(reg0)
      && ((callable.checkFormatting || callable.forceCorrectFormat) ==>
            forall k :: k in reg0 ==> Formattable(reg0[k], callable.settings))
      ==> r.Ok?
  {
    ghost var settings := callable.settings;
    ReformattedShape(w0, reg0, done, settings);
    var b := BlockOf(l);
    if b.Thrown? {
      return Thrown(b.error);
    }
    var p := b.value;
    assert p == PosOf(l);
    if IsSignAt(server.blocks, p) {
      r := VisitSign(storage.listOfSigns, removeInvalid, callable, server, l, invalid, reg0, w0, m0, done);
    } else {
      VisitFallen(done, l, reg0, w0, settings);
      if removeInvalid {
        var _ := storage.RemoveItem(l);
      }
      r := Ok(invalid + 1);
    }
  }

  /** The pass of `Visit` on an entry that holds a sign: the callable's
      `call()`. */
  method VisitSign(reg: Registry, removeInvalid: bool, callable: IterativeValidation, server: Server,
                   l: Location, invalid: int, ghost reg0: Registry, ghost w0: Blocks, ghost m0: int, ghost done: set<Location>)
    returns (r: Result<int>)
    requires FourLines(w0) && server.Valid()
    requires l in reg0 && l !in done && Stands(w0, l)
    requires Visited(reg, server.blocks, callable.misformatted, invalid, reg0, w0, m0, done,
                     removeInvalid, (callable.checkFormatting, callable.forceCorrectFormat, callable.settings))
    modifies callable`misformatted, server`blocks
    ensures server.Valid()
    ensures r.Ok? ==>
      Visited(reg, server.blocks, callable.misformatted, r.value, reg0, w0, m0, done + {l},
              removeInvalid, (callable.checkFormatting, callable.forceCorrectFormat, callable.settings))
    ensures r.Thrown? ==> r.error == IndexOutOfBounds && !Formattable(reg0[l], callable.settings)
    ensures ((callable.checkFormatting || callable.forceCorrectFormat) ==> Formattable(reg0[l], callable.settings)) ==> r.Ok?
  {
    ghost var settings := callable.settings;
    var p := PosOf(l);
    VisitStanding(done, l, reg0, w0, settings);
    var t := reg[l];
    assert t == reg0[l];
    assert server.blocks[p] == w0[p];
    var o := callable.Call(server, p, t);
    if o.Fail? {
      return Thrown(o.error);
    }
    if callable.forceCorrectFormat {
      ReformattedStep(w0, reg0, done, settings, l);
    }
    r := Ok(invalid);
  }

  /** `iterateOverStorage(storage, removeInvalidEntries, callable)`, with
      the two corrections: it walks a snapshot of the keys, so removing an
      entry cannot disturb the iteration, and it saves once, after the walk,
      when it removed anything. The entries are visited in an unspecified
      order (a `HashMap`'s). */
  method IterateOverStorage(storage: SignStorage, removeInvalid: bool, callable: IterativeValidation, server: Server)
    returns (r: Result<int>)
    requires server.Valid()
    modifies storage, callable`misformatted, server`blocks
    ensures server.Valid()
    ensures r.Thrown? ==>
      || (r.error == NullPointer && !AllWorldsPresent(old(storage.listOfSigns)))
      || (r.error == IndexOutOfBounds && exists l :: l in old(storage.listOfSigns) && !Formattable(old(storage.listOfSigns)[l], callable.settings))
    ensures AllWorldsPresent(old(storage.listOfSigns))
      && ((callable.checkFormatting || callable.forceCorrectFormat) ==>
            forall l :: l in old(storage.listOfSigns) ==> Formattable(old(storage.listOfSigns)[l], callable.settings))
      ==> r.Ok?
    ensures r.Ok? ==> r.value == |Invalid(old(storage.listOfSigns).Keys, old(server.blocks))|
    ensures r.Ok? ==>
      storage.listOfSigns ==
        if removeInvalid then old(storage.listOfSigns) - Invalid(old(storage.listOfSigns).Keys, old(server.blocks))
        else old(storage.listOfSigns)
    ensures r.Ok? && removeInvalid && r.value > 0 ==>
      Serialize(storage.listOfSigns).Ok? && storage.file == Some(Written(Serialize(storage.listOfSigns).value))
    ensures r.Ok? && !(removeInvalid && r.value > 0) ==> storage.file == old(storage.file)
    ensures r.Ok? ==>
      callable.misformatted == old(callable.misformatted) +
        if callable.checkFormatting
        then |Misformatted(old(storage.listOfSigns).Keys, old(storage.listOfSigns), old(server.blocks), callable.settings)|
        else 0
    ensures r.Ok? ==>
      server.blocks ==
        if callable.forceCorrectFormat
        then Reformatted(old(server.blocks), old(storage.listOfSigns), old(storage.listOfSigns).Keys, callable.settings)
        else old(server.blocks)
  {
    r := Walk(storage, removeInvalid, callable, server);
    if r.Ok? && removeInvalid && r.value > 0 {
      var _ := storage.Save();
    }
  }

  /** The loop of `iterateOverStorage`: every entry of a snapshot of the
      keys, visited once, in any order. */
  method Walk(storage: SignStorage, removeInvalid: bool, callable: IterativeValidation, server: Server)
    returns (r: Result<int>)
    requires server.Valid()
    modifies storage`listOfSigns, callable`misformatted, server`blocks
    ensures server.Valid()
    ensures r.Thrown? ==>
      || (r.error == NullPointer && !AllWorldsPresent(old(storage.listOfSigns)))
      || (r.error == IndexOutOfBounds && exists l :: l in old(storage.listOfSigns) && !Formattable(old(storage.listOfSigns)[l], callable.settings))
    ensures AllWorldsPresent(old(storage.listOfSigns))
      && ((callable.checkFormatting || callable.forceCorrectFormat) ==>
            forall l :: l in old(storage.listOfSigns) ==> Formattable(old(storage.listOfSigns)[l], callable.settings))
      ==> r.Ok?
    ensures r.Ok? ==>
      && FourLines(old(server.blocks))
      && Visited(storage.listOfSigns, server.blocks, callable.misformatted, r.value,
                 old(storage.listOfSigns), old(server.blocks), old(callable.misformatted), old(storage.listOfSigns).Keys,
                 removeInvalid, (callable.checkFormatting, callable.forceCorrectFormat, callable.settings))
  {
    ghost var reg0 := storage.listOfSigns;
    ghost var w0 := server.blocks;
    ghost var m0 := callable.misformatted;
    var invalid := 0;
    var rest := storage.listOfSigns.Keys;
    ghost var done: set<Location> := {};
    VisitedNothing(reg0, w0, m0, removeInvalid, (callable.checkFormatting, callable.forceCorrectFormat, callable.settings));
    while rest != {}
      invariant rest + done == reg0.Keys && rest !! done
      invariant server.Valid()
      invariant Visited(storage.listOfSigns, server.blocks, callable.misformatted, invalid, reg0, w0, m0, done,
                        removeInvalid, (callable.checkFormatting, callable.forceCorrectFormat, callable.settings))
      decreases |rest|
    {
      var l :| l in rest;
      rest := rest - {l};
      var v := Visit(storage, removeInvalid, callable, server, l, invalid, reg0, w0, m0, done);
      if v.Thrown? {
        return v;
      }
      invalid := v.value;
      done := done + {l};
    }
    assert done == reg0.Keys;
    r := Ok(invalid);
  }

  /** The three results of `validateAll`; -1 marks one that does not apply
      or could not be computed. */
  datatype ValidationReport = ValidationReport(total: int, invalid: int, misformatted: int)

  /** `validateAll(removeInvalidEntries, checkFormatting, forceCorrectFormat)`,
      corrected: the total, the invalid count (-1 if the iteration raised)
      and the count of wrongly formatted signs (-1 when not checked or when
      the iteration raised). */
  method ValidateAll(removeInvalid: bool, checkFormatting: bool, forceCorrectFormat: bool,
                     storage: SignStorage, server: Server, settings: Settings)
    returns (report: ValidationReport)
    requires server.Valid()
    modifies storage, server`blocks
    ensures server.Valid()
    ensures report.total == |old(storage.listOfSigns)|
    ensures report.invalid == -1 || report.invalid == |Invalid(old(storage.listOfSigns).Keys, old(server.blocks))|
    ensures AllWorldsPresent(old(storage.listOfSigns))
      && ((checkFormatting || forceCorrectFormat) ==>
            forall l :: l in old(storage.listOfSigns) ==> Formattable(old(storage.listOfSigns)[l], settings))
      ==> report.invalid != -1
    ensures report.misformatted ==
      if !checkFormatting || report.invalid == -1 then -1
      else |Misformatted(old(storage.listOfSigns).Keys, old(storage.listOfSigns), old(server.blocks), settings)|
    ensures report.invalid != -1 ==>
      storage.listOfSigns ==
        if removeInvalid then old(storage.listOfSigns) - Invalid(old(storage.listOfSigns).Keys, old(server.blocks))
        else old(storage.listOfSigns)
    ensures report.invalid != -1 && removeInvalid && report.invalid > 0 ==>
      Serialize(storage.listOfSigns).Ok? && storage.file == Some(Written(Serialize(storage.listOfSigns).value))
    ensures report.invalid != -1 && !(removeInvalid && report.invalid > 0) ==> storage.file == old(storage.file)
    ensures report.invalid != -1 ==>
      server.blocks ==
        if forceCorrectFormat
        then Reformatted(old(server.blocks), old(storage.listOfSigns), old(storage.listOfSigns).Keys, settings)
        else old(server.blocks)
  {
    var total := |storage.listOfSigns|;
    var callable := new IterativeValidation(checkFormatting, forceCorrectFormat, settings);
    var operation := IterateOverStorage(storage, removeInvalid, callable, server);
    var invalid := if operation.Ok? then operation.value else -1;
    var misformatted := if !checkFormatting || operation.Thrown? then -1 else callable.misformatted;
    report := ValidationReport(total, invalid, misformatted);
  }

  // The code as written.

  /** `ArrayList.add(index, x)`. */
  function ListAdd(list: seq<int>, index: int, x: int): (r: Result<seq<int>>)
    ensures r.Ok? <==> 0 <= index <= |list|
    ensures r.Thrown? ==> r.error == IndexOutOfBounds
    ensures r.Ok? ==> |r.value| == |list| + 1 && r.value[index] == x
  {
    if 0 <= index <= |list| then Ok(list[..index] + [x] + list[index..]) else Thrown(IndexOutOfBounds)
  }

  /** `ArrayList.set(index, x)`. */
  function ListSet(list: seq<int>, index: int, x: int): (r: Result<seq<int>>)
    ensures r.Ok? <==> 0 <= index < |list|
    ensures r.Thrown? ==> r.error == IndexOutOfBounds
    ensures r.Ok? ==> |r.value| == |list| && r.value[index] == x
  {
    if 0 <= index < |list| then Ok(list[index := x]) else Thrown(IndexOutOfBounds)
  }

  /** `ArrayList.get(index)`. */
  function ListGet(list: seq<int>, index: int): (r: Result<int>)
    ensures r.Ok? <==> 0 <= index < |list|
    ensures r.Thrown? ==> r.error == IndexOutOfBounds
  {
    if 0 <= index < |list| then Ok(list[index]) else Thrown(IndexOutOfBounds)
  }

  /** The counting statement of `call()` as written, on the result list it
      shares with `validateAll`. */
  function CountAsWritten(list: seq<int>): Result<seq<int>> {
    match ListGet(list, 1)
    case Thrown(e) => Thrown(e)
    case Ok(v) => ListSet(list, 2, v + 1)
  }

  /** During the iteration the shared list holds only the total, so the
      first wrongly formatted sign makes `call()` raise, and `validateAll`
      catches that as a failed iteration. */
  lemma CountAsWrittenRaises(total: int)
    ensures CountAsWritten([total]) == Thrown(IndexOutOfBounds)
  {
  }

  /** The bookkeeping of `validateAll` as written, given how the iteration
      ended. */
  function ValidateAllAsWritten(total: int, iteration: Result<int>, checkFormatting: bool): Result<seq<int>> {
    match ListAdd([], 0, total)
    case Thrown(e) => Thrown(e)
    case Ok(list) =>
      var operation := if iteration.Ok? then iteration.value else -1;
      match ListAdd(list, 1, operation)
      case Thrown(e) => Thrown(e)
      case Ok(list) =>
        var marked := if checkFormatting then Ok(list) else ListSet(list, 2, -1);
        match marked
        case Thrown(e) => Thrown(e)
        case Ok(list) =>
          match ListGet(list, 2)
          case Thrown(e) => Thrown(e)
          case Ok(_) => Ok(list)
  }

  /** `validateAll` as written never returns: the list has two elements when
      it sets or reads the third. */
  lemma ValidateAllAsWrittenRaises(total: int, iteration: Result<int>, checkFormatting: bool)
    ensures ValidateAllAsWritten(total, iteration, checkFormatting) == Thrown(IndexOutOfBounds)
  {
    var none: seq<int> := [];
    var one := [total];
    var list := [total, if iteration.Ok? then iteration.value else -1];
    assert none[..0] + [total] + none[0..] == one;
    assert ListAdd(none, 0, total) == Ok(one);
    assert one[..1] + [list[1]] + one[1..] == list;
    assert ListAdd(one, 1, list[1]) == Ok(list);
  }

  /** `iterateOverStorage` as written, from position `i` of the map's
      iteration order `order`. `cur` is the live map and `modified` records
      a removal since the iterator last advanced: the next `next()` then
      raises ConcurrentModificationException. When `removeInvalid` holds it
      saves after every entry once one was invalid, and saving a map that
      holds a location without a world raises NullPointerException. The
      callable is taken to succeed (it cannot change which blocks are
      signs). */
  function IterateAsWritten(w: Blocks, cur: Registry, order: seq<Location>, i: nat, removeInvalid: bool, invalid: int, modified: bool): Result<int>
    decreases |order| - i
  {
    if i >= |order| then Ok(invalid)
    else if modified then Thrown(ConcurrentModification)
    else
      var l := order[i];
      match BlockOf(l)
      case Thrown(e) => Thrown(e)
      case Ok(p) =>
        var removes := removeInvalid && !IsSignAt(w, p);
        var invalid' := if IsSignAt(w, p) then invalid else invalid + 1;
        var cur' := if removes then cur - {l} else cur;
        if removeInvalid && invalid' > 0 && !AllWorldsPresent(cur') then Thrown(NullPointer)
        else IterateAsWritten(w, cur', order, i + 1, removeInvalid, invalid', removes && l in cur)
  }

  /** As written, removing an invalid entry that is not the last one the
      iterator visits makes the iteration raise
      ConcurrentModificationException, even though every location has a
      world. */
  lemma {:induction false} IterateAsWrittenRaises(w: Blocks, cur: Registry, order: seq<Location>, i: nat, k: nat)
    requires i <= k && k + 1 < |order|
    requires AllWorldsPresent(cur)
    requires forall j :: i <= j <= k ==> order[j].world.Some?
    requires forall j :: i <= j < k ==> IsSignAt(w, PosOf(order[j]))
    requires !IsSignAt(w, PosOf(order[k])) && order[k] in cur
    ensures IterateAsWritten(w, cur, order, i, true, 0, false) == Thrown(ConcurrentModification)
    decreases k - i
  {
    if i == k {
      assert BlockOf(order[k]) == Ok(PosOf(order[k]));
      assert IterateAsWritten(w, cur - {order[k]}, order, k + 1, true, 1, true) == Thrown(ConcurrentModification);
    } else {
      assert BlockOf(order[i]) == Ok(PosOf(order[i]));
      IterateAsWrittenRaises(w, cur, order, i + 1, k);
    }
  }

  /** For instance: two registered locations in an empty world, the invalid
      one visited first. */
  lemma IterateAsWrittenExample()
    ensures var a := Location(Some(0), 0, 0, 0);
      var b := Location(Some(0), 1, 0, 0);
      IterateAsWritten(map[], map[a := Deposit, b := Withdraw], [a, b], 0, true, 0, false) == Thrown(ConcurrentModification)
  {
    var a := Location(Some(0), 0, 0, 0);
    var b := Location(Some(0), 1, 0, 0);
    IterateAsWrittenRaises(map[], map[a := Deposit, b := Withdraw], [a, b], 0, 0);
  }
}
