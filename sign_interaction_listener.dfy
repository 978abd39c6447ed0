/** `SignInteractionListener`: creation of MineAuction signs from the text a
    player writes, their removal by breaking, the choice of inventory a
    right-click opens, and the protection that cancels any world change
    which would destroy a registered sign or a block one hangs on. */
module Listener {
  import opened Lang
  import opened Bukkit
  import opened SignTypes
  import opened Storage
  import opened Attachment
  import opened MineAuctionSign

  /** The permission nodes for placing and breaking MineAuction signs. */
  const PlacePermission: string := "mineauction.signs.modify.place"
  const BreakPermission: string := "mineauction.signs.modify.break"

  /** The block at `p` is a sign whose location is registered. */
  predicate Registered(reg: Registry, w: Blocks, p: Pos) {
    IsSignAt(w, p) && LocationOf(p) in reg
  }

  predicate AnyRegistered(reg: Registry, w: Blocks, blocks: set<Pos>) {
    exists p :: p in blocks && Registered(reg, w, p)
  }

  /** The attached signs the first loop of `onBlockDestroyed` collects, with
      the recursion error of the first candidate whose search fails. */
  function Attached(w: Blocks, candidates: seq<Pos>): (r: Result<set<Pos>>)
    decreases |candidates|
  {
    if candidates == [] then Ok({})
    else
      var last := candidates[|candidates| - 1];
      match Attached(w, candidates[..|candidates| - 1])
      case Thrown(e) => Thrown(e)
      case Ok(before) =>
        match FindAttachedSigns(w, last)
        case Thrown(e) => Thrown(e)
        case Ok(found) => Ok(before + set p | p in found)
  }

  /** Every block `onBlockDestroyed` checks: the attached signs and the
      candidates themselves. */
  function Endangered(w: Blocks, candidates: seq<Pos>): Result<set<Pos>> {
    match Attached(w, candidates)
    case Thrown(e) => Thrown(e)
    case Ok(signs) => Ok(signs + set p | p in candidates)
  }

  /** The blocks checked are exactly the candidates and the signs attached to
      a candidate, directly or through other signs. */
  lemma {:induction false} AttachedExact(w: Blocks, candidates: seq<Pos>, x: Pos)
    requires Attached(w, candidates).Ok?
    ensures x in Attached(w, candidates).value <==> exists c :: c in candidates && Descends(w, x, c)
    decreases |candidates|
  {
    if candidates != [] {
      var init := candidates[..|candidates| - 1];
      var last := candidates[|candidates| - 1];
      AttachedExact(w, init, x);
      FindAttachedSignsExact(w, last, x);
      assert candidates == init + [last];
      if x in Attached(w, candidates).value && x !in Attached(w, init).value {
        assert last in candidates && Descends(w, x, last);
      }
      if c :| c in candidates && Descends(w, x, c) {
        if c != last {
          assert c in init;
        }
      }
    }
  }

  lemma EndangeredExact(w: Blocks, candidates: seq<Pos>, x: Pos)
    requires Endangered(w, candidates).Ok?
    ensures x in Endangered(w, candidates).value <==>
      x in candidates || exists c :: c in candidates && Descends(w, x, c)
  {
    AttachedExact(w, candidates, x);
  }

  /** In a world the game can produce the checks never overflow. */
  lemma {:induction false} EndangeredTerminates(w: Blocks, candidates: seq<Pos>)
    requires NoWallSignOnWallSign(w)
    ensures Endangered(w, candidates).Ok?
    decreases |candidates|
  {
    AttachedTerminates(w, candidates);
  }

  lemma {:induction false} AttachedTerminates(w: Blocks, candidates: seq<Pos>)
    requires NoWallSignOnWallSign(w)
    ensures Attached(w, candidates).Ok?
    decreases |candidates|
  {
    if candidates != [] {
      AttachedTerminates(w, candidates[..|candidates| - 1]);
      FindAttachedSignsTerminates(w, candidates[|candidates| - 1]);
    }
  }

  /** `onBlockDestroyed(e, entity, blocks)`: cancels the event when a
      candidate, or a sign attached to one, is a registered sign, and returns
      the final cancelled flag. A null collection leaves the event as it is. */
  method OnBlockDestroyed(e: Event, blocks: Option<seq<Pos>>, storage: SignStorage, w: Blocks) returns (r: Result<bool>)
    modifies e
    ensures blocks.None? ==> e.cancelled == old(e.cancelled) && r == Ok(e.cancelled)
    ensures blocks.Some? ==>
      var all := Endangered(w, blocks.value);
      && (all.Thrown? ==> e.cancelled == old(e.cancelled) && r == Thrown(all.error))
      && (all.Ok? ==>
            && e.cancelled == (old(e.cancelled) || AnyRegistered(storage.listOfSigns, w, all.value))
            && r == Ok(e.cancelled))
  {
    if blocks.None? {
      return Ok(e.cancelled);
    }
    var candidates := blocks.value;
    var allBlocks: set<Pos> := {};
    var i := 0;
    while i < |candidates|
      invariant 0 <= i <= |candidates|
      invariant Attached(w, candidates[..i]) == Ok(allBlocks)
    {
      assert candidates[..i + 1][..i] == candidates[..i];
      var found := FindAttachedSigns(w, candidates[i]);
      if found.Thrown? {
        assert Attached(w, candidates[..i + 1]).Thrown?;
        AttachedThrownExtends(w, candidates, i + 1);
        return Thrown(found.error);
      }
      allBlocks := allBlocks + set p | p in found.value;
      i := i + 1;
    }
    assert candidates[..i] == candidates;
    allBlocks := allBlocks + set p | p in candidates;
    assert Endangered(w, candidates) == Ok(allBlocks);
    var rest := allBlocks;
    while rest != {}
      invariant rest <= allBlocks
      invariant forall p :: p in allBlocks - rest ==> !IsValidMineAuctionSign(storage, w, p)
      invariant e.cancelled == old(e.cancelled)
    {
      var p :| p in rest;
      if IsValidMineAuctionSign(storage, w, p) {
        assert p in allBlocks && Registered(storage.listOfSigns, w, p);
        assert AnyRegistered(storage.listOfSigns, w, allBlocks);
        e.cancelled := true;
        break;
      }
      rest := rest - {p};
    }
    if rest == {} {
      assert allBlocks - rest == allBlocks;
      assert !AnyRegistered(storage.listOfSigns, w, allBlocks);
    } else {
      assert AnyRegistered(storage.listOfSigns, w, allBlocks);
    }
    assert e.cancelled == (old(e.cancelled) || AnyRegistered(storage.listOfSigns, w, allBlocks));
    return Ok(e.cancelled);
  }

  /** Once the collection fails on a prefix of the candidates it fails on
      all of them, with the same error. */
  lemma {:induction false} AttachedThrownExtends(w: Blocks, candidates: seq<Pos>, k: nat)
    requires k <= |candidates| && Attached(w, candidates[..k]).Thrown?
    ensures Attached(w, candidates) == Attached(w, candidates[..k])
    decreases |candidates| - k
  {
    if k < |candidates| {
      assert candidates[..k + 1][..k] == candidates[..k];
      AttachedThrownExtends(w, candidates, k + 1);
    } else {
      assert candidates[..k] == candidates;
    }
  }

  /** A registered sign hanging, directly or through other signs, on a
      candidate block makes the protection cancel. */
  lemma AttachedRegisteredProtected(reg: Registry, w: Blocks, candidates: seq<Pos>, c: Pos, x: Pos)
    requires Endangered(w, candidates).Ok?
    requires c in candidates && Descends(w, x, c) && LocationOf(x) in reg
    ensures AnyRegistered(reg, w, Endangered(w, candidates).value)
  {
    EndangeredExact(w, candidates, x);
    var n: nat :| n >= 1 && Ancestor(w, x, n) == Some(c);
    AncestorIsSign(w, x, n);
    assert Registered(reg, w, x);
  }

  /** The start of a chain of one or more attachments is a sign. */
  lemma AncestorIsSign(w: Blocks, x: Pos, n: nat)
    requires n >= 1 && Ancestor(w, x, n).Some?
    ensures IsSignAt(w, x)
    decreases n
  {
    if n > 1 {
      AncestorIsSign(w, x, n - 1);
    }
  }

  /** Nothing registered among the blocks checked: the protection leaves the
      event alone. */
  lemma NothingRegisteredNotProtected(reg: Registry, w: Blocks, candidates: seq<Pos>)
    requires Endangered(w, candidates).Ok?
    requires forall p :: p in candidates ==> !Registered(reg, w, p)
    requires forall p, c :: c in candidates && Descends(w, p, c) ==> LocationOf(p) !in reg
    ensures !AnyRegistered(reg, w, Endangered(w, candidates).value)
  {
    forall p | p in Endangered(w, candidates).value ensures !Registered(reg, w, p) {
      EndangeredExact(w, candidates, p);
    }
  }

  /** `blockBreakEvent`: the protection runs over the signs attached to the
      broken block. When it does not cancel and the broken block is itself a
      registered sign, a player with the break permission removes it and any
      other player is stopped. */
  method OnBlockBreak(e: Event, block: Pos, player: Player, storage: SignStorage, server: Server) returns (r: Outcome)
    requires server.Valid()
    modifies e, storage, server`blocks
    ensures server.Valid()
    ensures var cands := FindAttachedSigns(old(server.blocks), block);
      cands.Thrown? ==>
        && r == Fail(cands.error) && e.cancelled == old(e.cancelled)
        && storage.listOfSigns == old(storage.listOfSigns) && storage.file == old(storage.file)
        && server.blocks == old(server.blocks)
    ensures var cands := FindAttachedSigns(old(server.blocks), block);
      cands.Ok? && Endangered(old(server.blocks), cands.value).Thrown? ==>
        && r == Fail(Endangered(old(server.blocks), cands.value).error) && e.cancelled == old(e.cancelled)
        && storage.listOfSigns == old(storage.listOfSigns) && storage.file == old(storage.file)
        && server.blocks == old(server.blocks)
    ensures var cands := FindAttachedSigns(old(server.blocks), block);
      cands.Ok? && Endangered(old(server.blocks), cands.value).Ok? ==>
        var protected := old(e.cancelled) || AnyRegistered(old(storage.listOfSigns), old(server.blocks), Endangered(old(server.blocks), cands.value).value);
        var removing := !protected && Registered(old(storage.listOfSigns), old(server.blocks), block);
        && (!removing ==>
              && r == Pass && e.cancelled == protected
              && storage.listOfSigns == old(storage.listOfSigns) && storage.file == old(storage.file)
              && server.blocks == old(server.blocks))
        && (removing && !player.HasPermission(BreakPermission) ==>
              && r == Pass && e.cancelled
              && storage.listOfSigns == old(storage.listOfSigns) && storage.file == old(storage.file)
              && server.blocks == old(server.blocks))
        && (removing && player.HasPermission(BreakPermission) ==>
              && !e.cancelled
              && storage.listOfSigns == old(storage.listOfSigns) - {LocationOf(block)}
              && (Serialize(storage.listOfSigns).Ok? ==>
                    && r == Pass && storage.file == Some(Written(Serialize(storage.listOfSigns).value))
                    && server.blocks == old(server.blocks)[block := old(server.blocks)[block].WithLines(Invalidated(old(server.blocks)[block].lines, ""))])
              && (Serialize(storage.listOfSigns).Thrown? ==>
                    && r == Fail(NullPointer) && storage.file == Some(Truncated)
                    && server.blocks == old(server.blocks)))
  {
    var cands := FindAttachedSigns(server.blocks, block);
    if cands.Thrown? {
      return Fail(cands.error);
    }
    var protected := OnBlockDestroyed(e, Some(cands.value), storage, server.blocks);
    if protected.Thrown? {
      return Fail(protected.error);
    }
    r := Pass;
    if !protected.value {
      if IsSignAt(server.blocks, block) {
        if IsValidMineAuctionSign(storage, server.blocks, block) {
          if player.HasPermission(BreakPermission) {
            r := HandleRemoval(block, storage, server);
          } else {
            e.cancelled := true;
          }
        }
      }
    }
  }

  /** The event's line 0, trimmed, is the valid identifier ignoring case. */
  predicate Identified(lines: seq<string>)
    requires |lines| == 4
  {
    EqualsIgnoreCase(Trim(lines[0]), ValidSignIdentifier)
  }

  /** `signChangeEvent`: text whose first line is the identifier creates a
      sign of the type named on line 1 when the player may place signs;
      otherwise the sign is marked invalid with the reason. Other text is left
      alone. */
  method OnSignChange(e: SignChangeEvent, storage: SignStorage, settings: Settings) returns (r: Outcome)
    requires |e.lines| == 4
    modifies e`lines, storage
    ensures |e.lines| == 4
    ensures !Identified(old(e.lines)) ==>
      && r == Pass && e.lines == old(e.lines)
      && storage.listOfSigns == old(storage.listOfSigns) && storage.file == old(storage.file)
    ensures Identified(old(e.lines)) && !e.player.HasPermission(PlacePermission) ==>
      && r == Pass && e.lines == Invalidated(old(e.lines), "no permission")
      && storage.listOfSigns == old(storage.listOfSigns) && storage.file == old(storage.file)
    ensures Identified(old(e.lines)) && e.player.HasPermission(PlacePermission) && GetByName(Trim(old(e.lines)[1])).None? ==>
      && r == Pass && e.lines == Invalidated(old(e.lines), "wrong type")
      && storage.listOfSigns == old(storage.listOfSigns) && storage.file == old(storage.file)
    ensures Identified(old(e.lines)) && e.player.HasPermission(PlacePermission) && GetByName(Trim(old(e.lines)[1])).Some? ==>
      var t := GetByName(Trim(old(e.lines)[1])).value;
      var conf := ConfiguredFormatting(t, settings);
      var ser := Serialize(storage.listOfSigns);
      && storage.listOfSigns == old(storage.listOfSigns)[LocationOf(e.block) := t]
      && (ser.Thrown? ==> r == Fail(NullPointer) && storage.file == Some(Truncated) && e.lines == old(e.lines))
      && (ser.Ok? ==> storage.file == Some(Written(ser.value)))
      && (ser.Ok? && conf.Thrown? ==> r == Fail(conf.error) && e.lines == old(e.lines))
      && (ser.Ok? && conf.Ok? ==>
            && e.lines == Overwrite(old(e.lines), conf.value)
            && r == if |conf.value| >= 4 then Pass else Fail(IndexOutOfBounds))
      && (ser.Ok? && conf.Ok? && |conf.value| >= 4 ==> r == Pass && e.lines == conf.value[..4])
  {
    r := Pass;
    if EqualsIgnoreCase(Trim(e.lines[0]), ValidSignIdentifier) {
      if e.player.HasPermission(PlacePermission) {
        var t := GetByName(Trim(e.lines[1]));
        if t.None? {
          InvalidateEvent(e, "wrong type");
        } else {
          ghost var before := e.lines;
          r := HandleCreation(e, t.value, storage, settings);
          var conf := ConfiguredFormatting(t.value, settings);
          if Serialize(storage.listOfSigns).Ok? && conf.Ok? && |conf.value| >= 4 {
            OverwriteComplete(before, conf.value);
          }
        }
      } else {
        InvalidateEvent(e, "no permission");
      }
    }
  }

  /** A sign already marked invalid is not taken for a new MineAuction sign
      when its text changes again without touching line 0. */
  lemma InvalidatedSignIgnored(cur: seq<string>, message: string)
    requires |cur| == 4
    ensures !Identified(Invalidated(cur, message))
  {
    InvalidatedNotIdentified(cur, message);
  }

  /** Text that the listener accepts as a new sign: line 0 is the identifier
      with any case and surrounding blanks. */
  lemma IdentifierAccepted(lines: seq<string>)
    requires |lines| == 4 && lines[0] == ValidSignIdentifier
    ensures Identified(lines)
  {
    assert Trim(lines[0]) == lines[0];
    CaseVariantEqualsIgnoreCase(ValidSignIdentifier, lines[0]);
  }

  /** The `Action` of a `PlayerInteractEvent`. */
  datatype Action = LeftClickAir | LeftClickBlock | RightClickAir | RightClickBlock | Physical

  /** The virtual inventory an interaction opens. */
  datatype InventoryChoice = NoInventory | OpenDeposit | OpenWithdraw

  /** `playerInteractEvent`: right-clicking a registered sign opens the
      inventory of its stored type. */
  function InteractChoice(action: Action, clicked: Pos, storage: SignStorage, w: Blocks): (r: InventoryChoice)
    reads storage
    ensures r == OpenDeposit <==> action == RightClickBlock && IsSignAt(w, clicked) && storage.GetSignType(LocationOf(clicked)) == Some(Deposit)
    ensures r == OpenWithdraw <==> action == RightClickBlock && IsSignAt(w, clicked) && storage.GetSignType(LocationOf(clicked)) == Some(Withdraw)
    ensures r == NoInventory <==> !(action == RightClickBlock && Registered(storage.listOfSigns, w, clicked))
  {
    if action == RightClickBlock && IsValidMineAuctionSign(storage, w, clicked) then
      match storage.listOfSigns[LocationOf(clicked)]
      case Deposit => OpenDeposit
      case Withdraw => OpenWithdraw
    else NoInventory
  }

  /** The world changes the listener guards against, each with what it would
      destroy or move. */
  datatype Mutation =
    | BlockBurn(block: Pos)
    | BlockFade(block: Pos)
    | PistonExtend(moved: seq<Pos>)
    | PistonRetract(piston: Pos, direction: Face, sticky: bool)
    | BlockPhysics(block: Pos)
    | EntityChangeBlock(block: Pos)
    | EntityExplode(destroyed: seq<Pos>)
    | LeavesDecay(block: Pos)

  /** The candidates of `onBlockBlockPistonRetract` as written: the block in
      front of the piston, and the one behind it only for a non-sticky
      piston. */
  function RetractCandidatesAsWritten(piston: Pos, direction: Face, sticky: bool): (r: seq<Pos>)
    ensures Relative(piston, direction, 1) in r
    ensures Relative(piston, direction, 2) in r <==> !sticky
    ensures forall q :: q in r ==> q == Relative(piston, direction, 1) || q == Relative(piston, direction, 2)
  {
    [Relative(piston, direction, 1)] + if !sticky then [Relative(piston, direction, 2)] else []
  }

  /** The candidates as the handler's own comment describes them: the block
      two steps away counts only when a sticky piston pulls it back. */
  function RetractCandidates(piston: Pos, direction: Face, sticky: bool): (r: seq<Pos>)
    ensures Relative(piston, direction, 1) in r
    ensures Relative(piston, direction, 2) in r <==> sticky
    ensures forall q :: q in r ==> q == Relative(piston, direction, 1) || q == Relative(piston, direction, 2)
  {
    [Relative(piston, direction, 1)] + if sticky then [Relative(piston, direction, 2)] else []
  }

  /** The blocks each handler hands to `onBlockDestroyed`. For a retracting
      piston these are the blocks its handler's comment describes
      (`RetractCandidates`), not the ones its code collects
      (`RetractCandidatesAsWritten`). */
  function Candidates(m: Mutation): seq<Pos> {
    match m
    case BlockBurn(b) => [b]
    case BlockFade(b) => [b]
    case PistonExtend(moved) => moved
    case PistonRetract(p, d, sticky) => RetractCandidates(p, d, sticky)
    case BlockPhysics(b) => [b]
    case EntityChangeBlock(b) => [b]
    case EntityExplode(destroyed) => destroyed
    case LeavesDecay(b) => [b]
  }

  /** Every protection handler: the event is cancelled exactly when the change
      touches a registered sign or a block one hangs on. */
  method OnWorldMutation(e: Event, m: Mutation, storage: SignStorage, w: Blocks) returns (r: Result<bool>)
    modifies e
    ensures var all := Endangered(w, Candidates(m));
      && (all.Thrown? ==> e.cancelled == old(e.cancelled) && r == Thrown(all.error))
      && (all.Ok? ==>
            && e.cancelled == (old(e.cancelled) || AnyRegistered(storage.listOfSigns, w, all.value))
            && r == Ok(e.cancelled))
  {
    r := OnBlockDestroyed(e, Some(Candidates(m)), storage, w);
  }

  /** A sticky piston pulling back a block with a registered sign post on
      it: the corrected candidates protect the sign... */
  lemma StickyRetractProtected(lines: seq<string>)
    ensures var u := Pos(0, 2, 1, 0);
      var w := map[u := SignPost(lines)];
      var reg: Registry := map[LocationOf(u) := Deposit];
      && Endangered(w, RetractCandidates(Pos(0, 0, 0, 0), East, true)).Ok?
      && AnyRegistered(reg, w, Endangered(w, RetractCandidates(Pos(0, 0, 0, 0), East, true)).value)
  {
    var pulled := Pos(0, 2, 0, 0);
    var u := Pos(0, 2, 1, 0);
    var w := map[u := SignPost(lines)];
    var reg: Registry := map[LocationOf(u) := Deposit];
    var cands := RetractCandidates(Pos(0, 0, 0, 0), East, true);
    assert cands == [Pos(0, 1, 0, 0), pulled];
    assert NoWallSignOnWallSign(w);
    EndangeredTerminates(w, cands);
    assert Ancestor(w, u, 1) == Some(pulled);
    AttachedRegisteredProtected(reg, w, cands, pulled, u);
  }

  /** ...while the candidates as written miss it. */
  lemma StickyRetractAsWrittenMisses(lines: seq<string>)
    ensures var w := map[Pos(0, 2, 1, 0) := SignPost(lines)];
      Endangered(w, RetractCandidatesAsWritten(Pos(0, 0, 0, 0), East, true)) == Ok({Pos(0, 1, 0, 0)})
    ensures var w := map[Pos(0, 2, 1, 0) := SignPost(lines)];
      var reg: Registry := map[LocationOf(Pos(0, 2, 1, 0)) := Deposit];
      !AnyRegistered(reg, w, {Pos(0, 1, 0, 0)})
  {
    var front := Pos(0, 1, 0, 0);
    var u := Pos(0, 2, 1, 0);
    var w := map[u := SignPost(lines)];
    assert RetractCandidatesAsWritten(Pos(0, 0, 0, 0), East, true) == [front];
    NothingAround(w, front, {front});
    assert FindAttachedSigns(w, front) == Ok([]);
    AttachedLeaf(w, front);
    var cands := [front];
    assert Endangered(w, cands) == Ok({} + set p | p in cands);
    assert (set p | p in cands) == {front};
    assert {} + {front} == {front};
    assert Endangered(w, cands) == Ok({front});
    assert !IsSignAt(w, front);
    var reg: Registry := map[LocationOf(u) := Deposit];
    assert !Registered(reg, w, front);
  }

  /** A single candidate with nothing attached endangers no sign. */
  lemma AttachedLeaf(w: Blocks, c: Pos)
    requires FindAttachedSigns(w, c) == Ok([])
    ensures Attached(w, [c]) == Ok({})
  {
    var one := [c];
    assert one[..|one| - 1] == [];
    assert Attached(w, one[..|one| - 1]) == Ok({});
    var found: seq<Pos> := [];
    assert FindAttachedSigns(w, one[|one| - 1]) == Ok(found);
    assert Attached(w, one) == Ok({} + set p | p in found);
    assert {} + (set p | p in found) == {};
  }

  /** A block with no block at all on its search faces has nothing attached. */
  lemma NothingAround(w: Blocks, b: Pos, path: set<Pos>)
    requires forall f :: f in SearchFaces ==> Relative(b, f, 1) !in w
    ensures FindAttached(w, b, path) == Ok([])
  {
    assert SearchFaces == [North, South, East, West, Up];
    assert Relative(b, North, 1) !in w && Relative(b, South, 1) !in w && Relative(b, East, 1) !in w;
    assert Relative(b, West, 1) !in w && Relative(b, Up, 1) !in w;
    LeafFindsNothing(w, b, path);
  }
}
