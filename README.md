# MineAuction sign subsystem in Dafny

A model of the sign subsystem of the MineAuction Bukkit plugin
(`src/net/amunak/bukkit/mineauction/sign/`), with proofs about it. The
subsystem keeps a registry of "MineAuction signs": wall signs and sign posts
whose location is mapped to a sign type (deposit or withdraw). It creates a
sign when a player writes `[MineAuction]` on line 0, formats the sign from the
plugin configuration, removes it when a permitted player breaks it, and
cancels every world change (burning, fading, pistons, physics, endermen,
explosions, leaf decay, block breaking) that would destroy a registered sign
or a block a registered sign hangs on. A bulk validation walks the registry,
counts and optionally prunes entries whose block is no longer a sign, and
checks or forces the configured formatting.

The modules follow the source files:

- `lang.dfy` (`Lang`): the few `java.lang` behaviours the code depends on.
  These are null references (`Option`), exceptions (`Result`, `Outcome`),
  `String.trim`, `equalsIgnoreCase` and the two-char `String.replace`.
- `bukkit.dfy` (`Bukkit`): the server as values. A block position is a world
  UUID and integer coordinates. A `Location` may have a null world. A block
  is `Other`, `WallSign(facing, lines)` or `SignPost(lines)`. The server holds
  a map of blocks and a set of loaded worlds. Events have a `cancelled` flag.
- `sign_type.dfy` (`SignTypes`): `SignType.java`.
- `sign_storage.dfy` (`Storage`): `SignStorage.java`. A class whose
  `listOfSigns` map is updated in place, and whose storage file is an
  abstract optional value.
- `attachment.dfy` (`Attachment`): `MineAuctionSign.findAttachedSigns`.
  - The recursion carries the set of blocks on the current recursion path.
  - Reaching a block already on the path is the infinite recursion of the
    Java code, modelled as `StackOverflowError`.
  - It is proved that this never happens in any world where no wall sign
    hangs on another wall sign.
- `mine_auction_sign.dfy` (`MineAuctionSign`): configured formatting, the two
  `format` and `invalidate` overloads, `isValidMineAuctionSign`,
  `isCorrectlyFormatted`, and `handleCreation` / `handleRemoval`.
- `validation.dfy` (`Validation`): `IterativeValidation`,
  `iterateOverStorage` and `validateAll`. Each appears in a corrected form,
  and the parts that fail as written also appear in their as-written form.
- `sign_interaction_listener.dfy` (`Listener`): `SignInteractionListener.java`.

The methods that change state are proved against specification functions
(`Serialize`, `ConfiguredFormatting`, `Overwrite`, `Invalidated`,
`FindAttachedSigns`, `Endangered`, `Invalid`, `Misformatted`,
`Reformatted`). Lemmas then relate those functions to what the source
promises: round trips, exact characterisations and idempotence.

## Model

| member | source | states |
|---|---|---|
| Lang.TrimStart | src/net/amunak/bukkit/mineauction/sign/SignInteractionListener.java:81 | the result is a suffix; every dropped char is at most U+0020 and the first kept char is not |
| Lang.TrimEnd | src/net/amunak/bukkit/mineauction/sign/SignInteractionListener.java:81 | the result is a prefix; every dropped char is at most U+0020 and the last kept char is not |
| Lang.Trim | src/net/amunak/bukkit/mineauction/sign/SignInteractionListener.java:81 | `trim()` returns the infix of the string left after dropping a run of blanks (chars at most U+0020) at each end; the result neither starts nor ends with a blank; an already trimmed string is returned unchanged |
| Lang.ToUpperCase | src/net/amunak/bukkit/mineauction/sign/SignType.java:52 | maps exactly the lowercase ASCII letters to their upper case and fixes every other char |
| Lang.ToLowerCase | src/net/amunak/bukkit/mineauction/sign/SignType.java:52 | maps exactly the uppercase ASCII letters to their lower case and fixes every other char |
| Lang.CharEqualsIgnoreCase | src/net/amunak/bukkit/mineauction/sign/SignType.java:52 | the per-char rule of `equalsIgnoreCase`: equal, equal upper-cased, or equal lower-cased after upper-casing; `CaseVariantEqualsIgnoreCase` is its partner |
| Lang.EqualsIgnoreCase | src/net/amunak/bukkit/mineauction/sign/SignInteractionListener.java:81 | equal lengths and every char equal ignoring case; `EqualsIgnoreCaseSymmetric` and `CaseVariantEqualsIgnoreCase` state its properties |
| Lang.EqualsIgnoreCaseSymmetric | src/net/amunak/bukkit/mineauction/sign/SignType.java:52 | `equalsIgnoreCase` is symmetric |
| Lang.CaseVariantEqualsIgnoreCase | src/net/amunak/bukkit/mineauction/sign/SignType.java:52 | any per-char mix of upper and lower case equals the original ignoring case |
| Lang.ReplacePair | src/net/amunak/bukkit/mineauction/sign/MineAuctionSign.java:95 | `replace` of a two-char target, non-overlapping from left to right; `ReplacePairIdentity`, `ReplacePairHead` and `ReplacePairRemovesAll` state its properties |
| Lang.ReplacePairIdentity | src/net/amunak/bukkit/mineauction/sign/MineAuctionSign.java:95 | `replace` leaves a string without the pair unchanged |
| Lang.ReplacePairHead | src/net/amunak/bukkit/mineauction/sign/MineAuctionSign.java:95 | the first char of a replacement result is the replacement's first char when the pair leads, else the string's first char |
| Lang.ReplacePairRemovesAll | src/net/amunak/bukkit/mineauction/sign/MineAuctionSign.java:95 | with a replacement that cannot recreate the pair, no occurrence of the pair survives `replace` |
| Lang.NoPairInConcat | src/net/amunak/bukkit/mineauction/sign/MineAuctionSign.java:95 | two pair-free strings that do not form the pair at the seam concatenate to a pair-free string |
| Bukkit.LocationOf | src/net/amunak/bukkit/mineauction/sign/SignStorage.java:57 | `getLocation()` keeps the block's world (never null) and coordinates |
| Bukkit.BlockOf | src/net/amunak/bukkit/mineauction/sign/MineAuctionSign.java:372 | `getBlock()` succeeds exactly when the world is present, and returns the block at that location |
| Bukkit.LocationOfInjective | src/net/amunak/bukkit/mineauction/sign/SignStorage.java:57 | distinct blocks have distinct locations |
| Bukkit.Relative | src/net/amunak/bukkit/mineauction/sign/MineAuctionSign.java:63 | `getRelative` stays in the same world |
| Bukkit.RelativeBack | src/net/amunak/bukkit/mineauction/sign/MineAuctionSign.java:63 | a step to a face and a step back return to the block |
| Bukkit.Block.WithLines | src/net/amunak/bukkit/mineauction/sign/MineAuctionSign.java:112 | `setLine` changes the text only: a wall sign keeps its facing and a sign post stays a sign post |
| Bukkit.GetWorld | src/net/amunak/bukkit/mineauction/sign/SignStorage.java:143 | `getWorld(uid)` is non-null exactly for a loaded world, and is then that world |
| SignTypes.Name | src/net/amunak/bukkit/mineauction/sign/SignType.java:26-27 | DEPOSIT is named "deposit" and WITHDRAW "withdraw" |
| SignTypes.FirstByName | src/net/amunak/bukkit/mineauction/sign/SignType.java:50-57 | the lookup loop returns a candidate whose name matches ignoring case, and null exactly when none matches |
| SignTypes.GetByName | src/net/amunak/bukkit/mineauction/sign/SignType.java:50-57 | the first match over `values()`; `GetByNameSpec`, `GetByNameNone` and `GetByOwnName` characterise it |
| SignTypes.GetByNameSpec | src/net/amunak/bukkit/mineauction/sign/SignType.java:50-57 | `getByName(n)` is `t` if and only if `n` equals `t`'s name ignoring case |
| SignTypes.GetByNameNone | src/net/amunak/bukkit/mineauction/sign/SignType.java:56 | `getByName` returns null if and only if `n` matches neither name ignoring case |
| SignTypes.NamesDistinct | src/net/amunak/bukkit/mineauction/sign/SignType.java:26-27 | no input matches two types |
| SignTypes.GetByOwnName | src/net/amunak/bukkit/mineauction/sign/SignType.java:39-41 | round trip: `getByName(t.getName())` is `t` |
| SignTypes.GetByCaseVariant | src/net/amunak/bukkit/mineauction/sign/SignType.java:50-55 | any upper and lower case variant of a type's name finds that type |
| SignTypes.UpperCaseNamesParse | src/net/amunak/bukkit/mineauction/sign/SignType.java:50-55 | "DEPOSIT" and "Withdraw" are found |
| Storage.Simplify | src/net/amunak/bukkit/mineauction/sign/SignStorage.java:111 | the world UUID and coordinates of a location with a world; `Unsimplify` inverts it and `SimplifyImageSize` shows it injective |
| Storage.Unsimplify | src/net/amunak/bukkit/mineauction/sign/SignStorage.java:195-208 | every simplified location is the simplification of a location with a world |
| Storage.Resolve | src/net/amunak/bukkit/mineauction/sign/SignStorage.java:143 | a loaded world resolves to the original location; an unloaded one yields the same coordinates with a null world |
| Storage.Serialize | src/net/amunak/bukkit/mineauction/sign/SignStorage.java:106-114 | raises NullPointerException exactly when some location has a null world; otherwise each live entry appears under its simplified key with its type, and every serialized key comes from a live entry |
| Storage.LoadedFrom | src/net/amunak/bukkit/mineauction/sign/SignStorage.java:138-145 | the keys are exactly the resolved serialized locations, each holding the type of an entry that resolves to it; `RoundTrip`, `LoadResolved` and `UnresolvedKept` state its consequences |
| Storage.SignStorage.constructor | src/net/amunak/bukkit/mineauction/sign/SignStorage.java:51-54 | a new storage is empty |
| Storage.SignStorage.GetSignType | src/net/amunak/bukkit/mineauction/sign/SignStorage.java:56-58 | the type exactly for a present key, null otherwise |
| Storage.SignStorage.ContainsItem | src/net/amunak/bukkit/mineauction/sign/SignStorage.java:76-82 | key presence, agreeing with `getSignType` |
| Storage.SignStorage.AddItem | src/net/amunak/bukkit/mineauction/sign/SignStorage.java:60-66 | returns the previous mapping; the key now maps to the type and all other entries are unchanged |
| Storage.SignStorage.RemoveItem | src/net/amunak/bukkit/mineauction/sign/SignStorage.java:68-74 | returns the previous mapping; the key is absent and all other entries are unchanged |
| Storage.SignStorage.Purge | src/net/amunak/bukkit/mineauction/sign/SignStorage.java:88-90 | the map is empty and the file untouched |
| Storage.SignStorage.GetUnderlyingHashMap | src/net/amunak/bukkit/mineauction/sign/SignStorage.java:178-180 | reads the live map |
| Storage.SignStorage.SetUnderlyingHashMap | src/net/amunak/bukkit/mineauction/sign/SignStorage.java:188-190 | the contents are replaced wholesale |
| Storage.SignStorage.SerializeStorage | src/net/amunak/bukkit/mineauction/sign/SignStorage.java:106-114 | the entry-by-entry loop computes `Serialize` of the live map |
| Storage.SignStorage.Save | src/net/amunak/bukkit/mineauction/sign/SignStorage.java:121-130 | the file holds the serialized map; when serialization raises, the file is left truncated and the NullPointerException escapes |
| Storage.SignStorage.LoadSerializedStorage | src/net/amunak/bukkit/mineauction/sign/SignStorage.java:138-145 | the previous contents are discarded and the map is rebuilt with exactly one resolved entry per serialized entry |
| Storage.SignStorage.Load | src/net/amunak/bukkit/mineauction/sign/SignStorage.java:156-171 | a missing file is created by saving; an unreadable file changes nothing; a readable one replaces the map |
| Storage.RoundTrip | src/net/amunak/bukkit/mineauction/sign/SignStorage.java:106-145 | serializing and then loading with every world loaded restores the same map |
| Storage.LoadResolved | src/net/amunak/bukkit/mineauction/sign/SignStorage.java:138-145 | with all worlds loaded, every serialized entry is loaded under its location, and nothing else is |
| Storage.UnresolvedKept | src/net/amunak/bukkit/mineauction/sign/SignStorage.java:143 | an entry of an unloaded world is kept with a null world, and the next save then raises |
| Storage.SerializePreservesSize | src/net/amunak/bukkit/mineauction/sign/SignStorage.java:106-114 | serialization keeps the number of entries |
| Storage.SimplifyImageSize | src/net/amunak/bukkit/mineauction/sign/SignStorage.java:111 | simplification is injective on locations with a world |
| Attachment.SignSet | src/net/amunak/bukkit/mineauction/sign/MineAuctionSign.java:64-69 | exactly the positions holding a wall sign or sign post |
| Attachment.Supports | src/net/amunak/bukkit/mineauction/sign/MineAuctionSign.java:64-69 | a wall sign facing the searched horizontal face, or a sign post on top; `SupportsIsChild` relates it to attachment |
| Attachment.FindAttached | src/net/amunak/bukkit/mineauction/sign/MineAuctionSign.java:55-74 | one level of the recursion, carrying the blocks on the recursion path; `ExploreTerminates` and the `Explore` lemmas state what it finds |
| Attachment.Explore | src/net/amunak/bukkit/mineauction/sign/MineAuctionSign.java:62-72 | the face loop followed by the sign-post branch; `ExploreStep`, `ExploreSigns`, `ExploreDescends`, `ExploreFaces` and `ExploreClosed` state its results |
| Attachment.FindAttachedSigns | src/net/amunak/bukkit/mineauction/sign/MineAuctionSign.java:55-74 | the search from a block, with the block on the path; `FindAttachedSignsExact` and `FindAttachedSignsTerminates` characterise it |
| Attachment.Parent | src/net/amunak/bukkit/mineauction/sign/MineAuctionSign.java:62-71 | only a sign is attached to anything |
| Attachment.SupportsIsChild | src/net/amunak/bukkit/mineauction/sign/MineAuctionSign.java:62-71 | the search's neighbour test holds if and only if the neighbour is a sign attached to the block |
| Attachment.ChildThroughFace | src/net/amunak/bukkit/mineauction/sign/MineAuctionSign.java:62-71 | every sign attached to a block sits on one of the faces the search tries |
| Attachment.SignSetShrinks | src/net/amunak/bukkit/mineauction/sign/MineAuctionSign.java:66 | every recursive call shrinks the set of signs not yet on the path |
| Attachment.ExploreStep | src/net/amunak/bukkit/mineauction/sign/MineAuctionSign.java:62-72 | one face: a supported sign contributes itself, then its own attached signs, then the remaining faces' results |
| Attachment.ExploreSigns | src/net/amunak/bukkit/mineauction/sign/MineAuctionSign.java:64-70 | everything found is a sign off the recursion path |
| Attachment.ExploreDescends | src/net/amunak/bukkit/mineauction/sign/MineAuctionSign.java:62-71 | everything found hangs on the block through a chain of signs |
| Attachment.ExploreFaces | src/net/amunak/bukkit/mineauction/sign/MineAuctionSign.java:62-71 | every sign supported on a searched face is found |
| Attachment.ExploreClosed | src/net/amunak/bukkit/mineauction/sign/MineAuctionSign.java:66-71 | the signs attached to a found sign are found too |
| Attachment.ClosedUnderDescent | src/net/amunak/bukkit/mineauction/sign/MineAuctionSign.java:66-71 | a result closed under direct attachment contains every sign reached by a chain |
| Attachment.FindAttachedSignsExact | src/net/amunak/bukkit/mineauction/sign/MineAuctionSign.java:55-74 | the search returns exactly the signs hanging on the block, directly or through other signs, and not the block itself |
| Attachment.FindAttachedSignsNeighbours | src/net/amunak/bukkit/mineauction/sign/MineAuctionSign.java:62-71 | a wall sign facing away on a horizontal side, or a sign post on top, is in the result |
| Attachment.ChildRaisesRank | src/net/amunak/bukkit/mineauction/sign/MineAuctionSign.java:62-71 | when no wall sign hangs on a wall sign, attachment strictly raises a rank |
| Attachment.ExploreTerminates | src/net/amunak/bukkit/mineauction/sign/MineAuctionSign.java:62-72 | in such a world the face loop never meets its own path |
| Attachment.FindAttachedSignsTerminates | src/net/amunak/bukkit/mineauction/sign/MineAuctionSign.java:55-74 | in such a world the search always returns |
| Attachment.ExploreSkip | src/net/amunak/bukkit/mineauction/sign/MineAuctionSign.java:64 | a face without a supported sign contributes nothing |
| Attachment.ExploreRevisit | src/net/amunak/bukkit/mineauction/sign/MineAuctionSign.java:66 | a supported sign already on the path means unbounded recursion |
| Attachment.ExploreFound | src/net/amunak/bukkit/mineauction/sign/MineAuctionSign.java:65-66 | a supported sign is listed before the signs attached to it |
| Attachment.ExploreFails | src/net/amunak/bukkit/mineauction/sign/MineAuctionSign.java:66 | a failure below a child is the failure of the whole search |
| Attachment.BackToBackWallSignsOverflow | src/net/amunak/bukkit/mineauction/sign/MineAuctionSign.java:55-74 | two wall signs hanging on each other make the search overflow the stack |
| Attachment.BackToBackSecond | src/net/amunak/bukkit/mineauction/sign/MineAuctionSign.java:66 | the second sign of such a pair finds the first again |
| Attachment.WallSignAndPostFound | src/net/amunak/bukkit/mineauction/sign/MineAuctionSign.java:55-74 | a north wall sign and a sign post on top are found in face order |
| Attachment.WallSignAndPostNorth | src/net/amunak/bukkit/mineauction/sign/MineAuctionSign.java:66 | the wall sign of that world has nothing attached |
| Attachment.WallSignAndPostTail | src/net/amunak/bukkit/mineauction/sign/MineAuctionSign.java:62-72 | the remaining faces find only the sign post |
| Attachment.WallSignAndPostUp | src/net/amunak/bukkit/mineauction/sign/MineAuctionSign.java:69-72 | the top face finds the sign post alone |
| Attachment.WallSignAndPostPost | src/net/amunak/bukkit/mineauction/sign/MineAuctionSign.java:71 | the sign post has nothing attached |
| Attachment.LeafFindsNothing | src/net/amunak/bukkit/mineauction/sign/MineAuctionSign.java:55-74 | a block without a supported sign on any face has nothing attached |
| MineAuctionSign.GetStringList | src/net/amunak/bukkit/mineauction/sign/MineAuctionSign.java:91-92 | the configured list, or the empty list for a missing key |
| MineAuctionSign.FixLine | src/net/amunak/bukkit/mineauction/sign/MineAuctionSign.java:94-97 | the replace hack followed by colour translation; `FixLineRemovesBuggySequence` and `FixLineKeepsCleanLines` state its properties |
| MineAuctionSign.FixLineRemovesBuggySequence | src/net/amunak/bukkit/mineauction/sign/MineAuctionSign.java:95 | no "Â§" survives the replace hack |
| MineAuctionSign.FixLineKeepsCleanLines | src/net/amunak/bukkit/mineauction/sign/MineAuctionSign.java:95-96 | a line without "Â§" goes to colour translation unchanged |
| MineAuctionSign.ConfiguredFormatting | src/net/amunak/bukkit/mineauction/sign/MineAuctionSign.java:89-100 | header plus type lines in length; the type lines are inserted at index 2 and every line is fixed; a header of fewer than two lines raises IndexOutOfBoundsException |
| MineAuctionSign.GetConfiguredFormatting | src/net/amunak/bukkit/mineauction/sign/MineAuctionSign.java:89-100 | the in-place rewriting loop computes `ConfiguredFormatting` |
| MineAuctionSign.Overwrite | src/net/amunak/bukkit/mineauction/sign/MineAuctionSign.java:111-113 | line i is the configured line i when there is one, else the sign's old line |
| MineAuctionSign.WriteLines | src/net/amunak/bukkit/mineauction/sign/MineAuctionSign.java:111-113 | the `setLine` loop writes `Overwrite` and raises IndexOutOfBoundsException exactly for fewer than four configured lines |
| MineAuctionSign.OverwriteComplete | src/net/amunak/bukkit/mineauction/sign/MineAuctionSign.java:109-114 | with four or more configured lines, the sign shows exactly the first four |
| MineAuctionSign.OverwriteIdempotent | src/net/amunak/bukkit/mineauction/sign/MineAuctionSign.java:109-114 | formatting twice is formatting once |
| MineAuctionSign.FormatSign | src/net/amunak/bukkit/mineauction/sign/MineAuctionSign.java:109-114 | only that sign's text changes, to `Overwrite` of the configured lines; configuration errors propagate |
| MineAuctionSign.FormatEvent | src/net/amunak/bukkit/mineauction/sign/MineAuctionSign.java:123-128 | the event's lines become `Overwrite` of the configured lines; configuration errors propagate |
| MineAuctionSign.Invalidated | src/net/amunak/bukkit/mineauction/sign/MineAuctionSign.java:162-165 | line 0 is "*MineAuction*", line 3 is RED + message, lines 1 and 2 are kept |
| MineAuctionSign.InvalidatedIdempotent | src/net/amunak/bukkit/mineauction/sign/MineAuctionSign.java:182-185 | invalidating twice with one message is invalidating once |
| MineAuctionSign.InvalidatedNotIdentified | src/net/amunak/bukkit/mineauction/sign/MineAuctionSign.java:44 | an invalidated line 0 never passes for the valid identifier |
| MineAuctionSign.InvalidateEvent | src/net/amunak/bukkit/mineauction/sign/MineAuctionSign.java:162-174 | the event's lines become `Invalidated` (the one-argument form passes "") |
| MineAuctionSign.InvalidateSign | src/net/amunak/bukkit/mineauction/sign/MineAuctionSign.java:182-194 | only that sign's text changes, to `Invalidated` |
| MineAuctionSign.IsValidMineAuctionSign | src/net/amunak/bukkit/mineauction/sign/MineAuctionSign.java:202-226 | holds if and only if the block is a sign post or wall sign and its location is registered |
| MineAuctionSign.FormatCheck | src/net/amunak/bukkit/mineauction/sign/MineAuctionSign.java:237-242 | the answer of the early-return loop; `FormatCheckSpec` characterises it |
| MineAuctionSign.FormatCheckSpec | src/net/amunak/bukkit/mineauction/sign/MineAuctionSign.java:235-243 | the check succeeds if and only if the sign shows the first four configured lines; it raises only for fewer than four |
| MineAuctionSign.FormattedIsCorrect | src/net/amunak/bukkit/mineauction/sign/MineAuctionSign.java:109-114 | after `format`, `isCorrectlyFormatted` holds |
| MineAuctionSign.CheckLines | src/net/amunak/bukkit/mineauction/sign/MineAuctionSign.java:237-242 | the early-return loop computes `FormatCheck` |
| MineAuctionSign.IsCorrectlyFormatted | src/net/amunak/bukkit/mineauction/sign/MineAuctionSign.java:235-243 | configuration errors propagate; otherwise the answer is `FormatCheck` |
| MineAuctionSign.HandleCreation | src/net/amunak/bukkit/mineauction/sign/MineAuctionSign.java:137-141 | the location maps to the type, the file holds the saved map, and the lines are formatted unless saving raised |
| MineAuctionSign.HandleRemoval | src/net/amunak/bukkit/mineauction/sign/MineAuctionSign.java:149-153 | the location is absent, the file holds the saved map, and the sign is invalidated with "" unless saving raised |
| Listener.Registered | src/net/amunak/bukkit/mineauction/sign/SignInteractionListener.java:164 | the block is a sign and its location is registered, as `isValidMineAuctionSign` decides |
| Listener.AnyRegistered | src/net/amunak/bukkit/mineauction/sign/SignInteractionListener.java:163-177 | some block of the set is a registered sign |
| Listener.Attached | src/net/amunak/bukkit/mineauction/sign/SignInteractionListener.java:158-161 | the union of the searches from every candidate, or the first search's error; `AttachedExact` characterises it |
| Listener.Endangered | src/net/amunak/bukkit/mineauction/sign/SignInteractionListener.java:158-162 | the attached signs and the candidates; `EndangeredExact` characterises it |
| Listener.AttachedExact | src/net/amunak/bukkit/mineauction/sign/SignInteractionListener.java:158-161 | the collected signs are exactly those hanging, directly or through signs, on some candidate |
| Listener.EndangeredExact | src/net/amunak/bukkit/mineauction/sign/SignInteractionListener.java:158-162 | the checked blocks are exactly the candidates and the signs hanging on them |
| Listener.EndangeredTerminates | src/net/amunak/bukkit/mineauction/sign/SignInteractionListener.java:158-162 | without wall signs on wall signs the collection never overflows |
| Listener.AttachedTerminates | src/net/amunak/bukkit/mineauction/sign/SignInteractionListener.java:159-161 | the same for the collection loop |
| Listener.OnBlockDestroyed | src/net/amunak/bukkit/mineauction/sign/SignInteractionListener.java:156-180 | the event ends cancelled if and only if it was cancelled or some checked block is a registered sign; it is never un-cancelled; the result is the final flag; a null collection changes nothing |
| Listener.AttachedThrownExtends | src/net/amunak/bukkit/mineauction/sign/SignInteractionListener.java:159-161 | the first failing search ends the collection with its error |
| Listener.AttachedRegisteredProtected | src/net/amunak/bukkit/mineauction/sign/SignInteractionListener.java:163-176 | a registered sign hanging on a candidate makes the protection fire |
| Listener.AncestorIsSign | src/net/amunak/bukkit/mineauction/sign/MineAuctionSign.java:64-69 | anything attached by a chain is a sign |
| Listener.NothingRegisteredNotProtected | src/net/amunak/bukkit/mineauction/sign/SignInteractionListener.java:163-177 | with no registered sign among candidates and their attached signs the protection does not fire |
| Listener.OnBlockBreak | src/net/amunak/bukkit/mineauction/sign/SignInteractionListener.java:119-138 | when protection fires nothing else changes; a registered sign broken with the break permission is removed and invalidated; without it the event is cancelled and storage is unchanged |
| Listener.OnSignChange | src/net/amunak/bukkit/mineauction/sign/SignInteractionListener.java:78-97 | other text changes nothing; without permission it is invalidated with "no permission"; an unknown type is invalidated with "wrong type"; otherwise the sign is registered, the file holds the saved map (or is truncated, and the NullPointerException escapes), and the lines are formatted, with configuration errors propagating; storage changes only in the last case |
| Listener.Identified | src/net/amunak/bukkit/mineauction/sign/SignInteractionListener.java:81 | trimmed line 0 equals the identifier ignoring case; `IdentifierAccepted` and `InvalidatedSignIgnored` state its properties |
| Listener.InvalidatedSignIgnored | src/net/amunak/bukkit/mineauction/sign/SignInteractionListener.java:81 | an invalidated sign is not taken for a new one |
| Listener.IdentifierAccepted | src/net/amunak/bukkit/mineauction/sign/SignInteractionListener.java:81 | line 0 "[MineAuction]" is accepted |
| Listener.InteractChoice | src/net/amunak/bukkit/mineauction/sign/SignInteractionListener.java:56-71 | right-clicking a registered sign opens the inventory of its stored type; every other interaction opens none |
| Listener.RetractCandidatesAsWritten | src/net/amunak/bukkit/mineauction/sign/SignInteractionListener.java:221-227 | the front block always, the block two steps away if and only if the piston is not sticky, and no other block |
| Listener.RetractCandidates | src/net/amunak/bukkit/mineauction/sign/SignInteractionListener.java:222-227 | the front block always, the block two steps away if and only if the piston is sticky, and no other block |
| Listener.Candidates | src/net/amunak/bukkit/mineauction/sign/SignInteractionListener.java:187-271 | the blocks each protection handler passes on; for a piston retraction the corrected candidates |
| Listener.OnWorldMutation | src/net/amunak/bukkit/mineauction/sign/SignInteractionListener.java:187-271 | every protection handler cancels if and only if its blocks, or signs on them, include a registered sign (the piston retraction with its corrected candidates) |
| Listener.StickyRetractProtected | src/net/amunak/bukkit/mineauction/sign/SignInteractionListener.java:222-229 | with the corrected candidates a sticky retraction under a registered sign post is cancelled |
| Listener.StickyRetractAsWrittenMisses | src/net/amunak/bukkit/mineauction/sign/SignInteractionListener.java:224-229 | with the candidates as written the same retraction checks only the front block and is not cancelled |
| Listener.AttachedLeaf | src/net/amunak/bukkit/mineauction/sign/SignInteractionListener.java:159-161 | one candidate with nothing attached collects nothing |
| Listener.NothingAround | src/net/amunak/bukkit/mineauction/sign/MineAuctionSign.java:55-74 | a block with no signs around it has nothing attached |
| Validation.PosOf | src/net/amunak/bukkit/mineauction/sign/MineAuctionSign.java:372 | the block of a location with a world lies at that location |
| Validation.Invalid | src/net/amunak/bukkit/mineauction/sign/MineAuctionSign.java:372-377 | the visited entries whose block is not a sign; `VisitFallen` and `VisitStanding` relate it to one pass |
| Validation.Misformatted | src/net/amunak/bukkit/mineauction/sign/MineAuctionSign.java:291-292 | the visited standing signs whose lines `isCorrectlyFormatted` rejects; `VisitStanding` relates it to one pass |
| Validation.Reformatted | src/net/amunak/bukkit/mineauction/sign/MineAuctionSign.java:293-297 | the world after `format` on every visited standing sign of a formattable type; `ReformattedShape`, `ReformattedStep`, `ReformattedSkip` and `ReformattedIsCorrect` state its properties |
| Validation.ReformattedShape | src/net/amunak/bukkit/mineauction/sign/MineAuctionSign.java:294-297 | forced formatting keeps every block where it is, keeps signs signs, and keeps four lines |
| Validation.ReformattedStep | src/net/amunak/bukkit/mineauction/sign/MineAuctionSign.java:372-375 | visiting a standing sign rewrites exactly that sign |
| Validation.ReformattedSkip | src/net/amunak/bukkit/mineauction/sign/MineAuctionSign.java:376-381 | visiting an entry whose sign is gone rewrites nothing |
| Validation.ReformattedIsCorrect | src/net/amunak/bukkit/mineauction/sign/MineAuctionSign.java:313-314 | after a forced validation, every standing registered sign is correctly formatted |
| Validation.RevalidationFindsNothing | src/net/amunak/bukkit/mineauction/sign/MineAuctionSign.java:309-324 | a validation after one that removed invalid entries and forced formatting finds no invalid and no misformatted sign |
| Validation.VisitStanding | src/net/amunak/bukkit/mineauction/sign/MineAuctionSign.java:372-375 | a standing sign is not invalid and adds to the misformatted count exactly when its lines are wrong |
| Validation.VisitFallen | src/net/amunak/bukkit/mineauction/sign/MineAuctionSign.java:376-381 | an entry whose sign is gone adds one invalid entry and nothing else |
| Validation.IterativeValidation.constructor | src/net/amunak/bukkit/mineauction/sign/MineAuctionSign.java:278-287 | the flags are stored and the count starts at zero |
| Validation.IterativeValidation.Call | src/net/amunak/bukkit/mineauction/sign/MineAuctionSign.java:290-300 | a wrongly formatted sign raises the count when checking; forcing formats it; a complete configuration never fails, and afterwards a forced sign is correctly formatted |
| Validation.VisitedNothing | src/net/amunak/bukkit/mineauction/sign/MineAuctionSign.java:370 | before the loop nothing is counted or changed |
| Validation.Visit | src/net/amunak/bukkit/mineauction/sign/MineAuctionSign.java:372-381 | one entry: a standing sign goes to the callable; a fallen one is counted and, when removing, removed |
| Validation.VisitSign | src/net/amunak/bukkit/mineauction/sign/MineAuctionSign.java:373-375 | the callable's pass on one standing sign |
| Validation.Walk | src/net/amunak/bukkit/mineauction/sign/MineAuctionSign.java:371-385 | the loop over a snapshot of the keys visits each entry once |
| Validation.IterateOverStorage | src/net/amunak/bukkit/mineauction/sign/MineAuctionSign.java:354-387 | returns the number of entries whose block is not a sign; with removal exactly those go; the storage is saved once if it changed; the callable sees every standing sign; a null world or an incomplete configuration are the only failures |
| Validation.ValidateAll | src/net/amunak/bukkit/mineauction/sign/MineAuctionSign.java:319-351 | the total, the invalid count (-1 only on failure), and the misformatted count (-1 when not checked or on failure); the pruned map, the reformatted world, and the file saved once exactly when entries were removed |
| Validation.ListAdd | src/net/amunak/bukkit/mineauction/sign/MineAuctionSign.java:331 | `ArrayList.add(i, x)` raises exactly for i outside 0..size |
| Validation.ListSet | src/net/amunak/bukkit/mineauction/sign/MineAuctionSign.java:341 | `ArrayList.set(i, x)` raises exactly for i outside 0..size-1 |
| Validation.ListGet | src/net/amunak/bukkit/mineauction/sign/MineAuctionSign.java:348 | `ArrayList.get(i)` raises exactly for i outside 0..size-1 |
| Validation.CountAsWritten | src/net/amunak/bukkit/mineauction/sign/MineAuctionSign.java:292 | `set(2, get(1) + 1)` on the shared list; `CountAsWrittenRaises` is its partner |
| Validation.ValidateAllAsWritten | src/net/amunak/bukkit/mineauction/sign/MineAuctionSign.java:326-351 | the list bookkeeping of `validateAll` as written; `ValidateAllAsWrittenRaises` is its partner |
| Validation.IterateAsWritten | src/net/amunak/bukkit/mineauction/sign/MineAuctionSign.java:369-387 | the entry-set iteration as written, with removal during the iteration and a save on every pass; `IterateAsWrittenRaises` is its partner |
| Validation.CountAsWrittenRaises | src/net/amunak/bukkit/mineauction/sign/MineAuctionSign.java:292 | the count update raises IndexOutOfBoundsException on the one-element list it sees |
| Validation.ValidateAllAsWrittenRaises | src/net/amunak/bukkit/mineauction/sign/MineAuctionSign.java:326-351 | `validateAll` as written raises IndexOutOfBoundsException whatever the iteration did |
| Validation.IterateAsWrittenRaises | src/net/amunak/bukkit/mineauction/sign/MineAuctionSign.java:371-385 | removing an entry that is not the last one visited raises ConcurrentModificationException |
| Validation.IterateAsWrittenExample | src/net/amunak/bukkit/mineauction/sign/MineAuctionSign.java:371-385 | two entries in an empty world with the first removed raise ConcurrentModificationException |

## Left out

- File I/O of `save` and `load` is left out. `signsstorage.bin` is an abstract
  optional value: missing, truncated, or holding a serialized map. An
  `IOException` is the truncated state. `ClassNotFoundException` is not
  modelled.
- Logging, event names, the entity names of `onBlockDestroyed` (lines
  166-174) and the debug character dump of `signChangeEvent` are left out.
  They only produce log text.
- `VirtualInventory.deposit` and `withdraw` are left out. These open user
  interfaces, so only which one is chosen is modelled.
- `ChatColor.translateAlternateColorCodes` is a parameter of the
  configuration (`Settings.translate`). Its source is not part of this model.
- Event priorities and `ignoreCancelled` dispatch are left out. Bukkit
  decides whether a handler is called at all.
- Lang.CharEqualsIgnoreCase: ASCII case mapping only, because Java's full
  Unicode case tables are not modelled.
- Bukkit.Relative: only the faces the subsystem uses, with integer block
  coordinates. `Location` and `SimplifiedLocation` hold doubles in the
  source; floating point is not modelled.
- `Sign.update()` is never called in the source. In Bukkit a `Sign` taken
  from `getState()` is a copy of the block, and `setLine` on it reaches the
  world only through `update()`. The model writes a placed sign's lines
  straight into the world, as the code evidently intends. So the following
  state what the code means, not what the plugin does:
  - MineAuctionSign.FormatSign, MineAuctionSign.InvalidateSign,
    MineAuctionSign.HandleRemoval and Listener.OnBlockBreak;
  - Validation.IterativeValidation.Call, Validation.Visit,
    Validation.VisitSign, Validation.Walk, Validation.IterateOverStorage and
    Validation.ValidateAll;
  - Validation.ReformattedIsCorrect and Validation.RevalidationFindsNothing.

  In the plugin, `forceCorrectFormat` leaves the world unchanged, and a
  removed sign keeps its text until it breaks. The Bukkit API is not part of
  this model, so this is not listed as a finding. The lines of a
  `SignChangeEvent` are applied by the server when the event ends, so
  `FormatEvent`, `InvalidateEvent` and `OnSignChange` are not affected.
- `getUnderlyingHashMap` returns the live map. Storage.SignStorage.GetUnderlyingHashMap
  models it as a read of the field. The aliasing through which later
  changes show in the caller's reference is not modelled.
- Attachment.FindAttachedSigns: the `HashSet` of faces is iterated as North,
  South, East, West. The real order is the enum's hash order and is
  unspecified. Only the set of signs found matters to the callers.
- Listener.OnWorldMutation: for a piston retraction it checks
  `RetractCandidates`, the blocks the handler's own comment describes. The
  code passes `RetractCandidatesAsWritten` (see Findings). With the code as
  written, a non-sticky retraction also checks the block two steps away, and
  a sticky one does not.
- Validation.Walk: the map's iteration order is unspecified. The loop picks
  keys in any order, and everything proved holds for every order.
- Validation.IterateAsWritten: the callable is taken to succeed. Its
  failures are covered by the corrected model.
- Validation.ValidateAll: the documented contract is followed, including a
  misformatted count of -1 when the iteration raised. A count taken before
  the failure is not reported.
- Validation.IterateOverStorage: the convenience overload
  `iterateOverStorage(storage, callable)` is this method with
  `removeInvalid` false, so it has no member of its own.
- The `IterativeBase` setters and getters are left out. `Visit` passes the
  sign and its type to `Call` directly.
- The code was followed where the documentation differs in three places:
  - A configuration too short for four lines gets no placeholder lines. The
    write or check raises IndexOutOfBoundsException.
  - An unreadable storage file leaves the map as it was, rather than empty.
  - The header is not required to have exactly two lines.

## Findings

| source | as written | input that shows it | evidently intended | confidence | as-written member | corrected member |
|---|---|---|---|---|---|---|
| src/net/amunak/bukkit/mineauction/sign/MineAuctionSign.java:292 and 331-348 | the shared result list has one element during the iteration and two afterwards. `call()` reads index 1 and writes index 2; `validateAll` sets or reads index 2 | any call of `validateAll`, for instance an empty storage with `checkFormatting` false | three results: total, invalid count, misformatted count, -1 where not applicable | not executed | Validation.ValidateAllAsWrittenRaises | Validation.ValidateAll |
| src/net/amunak/bukkit/mineauction/sign/MineAuctionSign.java:292 | the misformatted count reads index 1 of a one-element list | one wrongly formatted sign with `checkFormatting` true | the count of wrongly formatted signs goes up by one | not executed | Validation.CountAsWrittenRaises | Validation.IterativeValidation.Call |
| src/net/amunak/bukkit/mineauction/sign/MineAuctionSign.java:371-385 | entries are removed from the map while its entry set is iterated, and the storage is saved on every later pass | two registered locations in an empty world, with removal on and the first one visited removed | every invalid entry removed, and one save afterwards | not executed | Validation.IterateAsWrittenRaises | Validation.IterateOverStorage |
| src/net/amunak/bukkit/mineauction/sign/SignInteractionListener.java:225-226 | the block two steps away is checked only for a non-sticky piston, the opposite of the comment on line 225 | a sticky piston at (0,0,0) facing East retracting, with a registered sign post on (2,1,0) | the block two steps away is checked when a sticky piston pulls it back | not executed | Listener.StickyRetractAsWrittenMisses | Listener.StickyRetractProtected |
