/** `MineAuctionSign.findAttachedSigns`: the signs that hang on a block (wall
    signs on its four sides that face away from it) or stand on it (a sign
    post directly above), and, recursively, the signs attached to those.

    The source keeps no visited set. A search that comes back to a block on
    its own recursion path would recurse until the stack overflows, which can
    only happen in a world where wall signs hang on one another in a ring;
    the model carries the recursion path and reports that case as a raised
    StackOverflowError. */
module Attachment {
  import opened Lang
  import opened Bukkit

  /** The faces the search tries, in the order it tries them. */
  const SearchFaces: seq<Face> := HorizontalFaces + [Up]

  /** The positions that hold a sign. */
  function SignSet(w: Blocks): (s: set<Pos>)
    ensures forall p :: p in s <==> IsSignAt(w, p)
  {
    set p | p in w && w[p].IsSign()
  }

  /** The search includes the block at `face` of `b`: a wall sign facing
      `face` for a horizontal face, a sign post for Up. */
  predicate Supports(w: Blocks, b: Pos, face: Face) {
    var c := Relative(b, face, 1);
    if face == Up then BlockAt(w, c).SignPost?
    else face in HorizontalFaces && BlockAt(w, c).WallSign? && BlockAt(w, c).facing == face
  }

  /** The block a sign is attached to: the block behind a wall sign, the
      block under a sign post. */
  function Parent(w: Blocks, c: Pos): (r: Option<Pos>)
    ensures r.Some? ==> IsSignAt(w, c)
  {
    match BlockAt(w, c)
    case WallSign(f, _) => if f in HorizontalFaces then Some(Relative(c, f, -1)) else None
    case SignPost(_) => Some(Relative(c, Up, -1))
    case Other => None
  }

  /** `c` is a sign attached directly to `a`. */
  predicate Child(w: Blocks, a: Pos, c: Pos) {
    Parent(w, c) == Some(a)
  }

  /** The block reached from `c` by following `n` attachments. */
  function Ancestor(w: Blocks, c: Pos, n: nat): Option<Pos> {
    if n == 0 then Some(c)
    else match Ancestor(w, c, n - 1)
      case None => None
      case Some(a) => Parent(w, a)
  }

  /** The search's neighbour test and the attachment relation agree. */
  lemma SupportsIsChild(w: Blocks, b: Pos, face: Face)
    requires face in SearchFaces
    ensures Supports(w, b, face) <==> Child(w, b, Relative(b, face, 1))
  {
  }

  /** Every sign attached to `b` is found through one of the search faces. */
  lemma ChildThroughFace(w: Blocks, b: Pos, c: Pos) returns (face: Face)
    requires Child(w, b, c)
    ensures face in SearchFaces && c == Relative(b, face, 1) && Supports(w, b, face)
  {
    match BlockAt(w, c)
    case WallSign(f, _) =>
      face := f;
      assert Relative(Relative(c, f, -1), f, 1) == c;
    case SignPost(_) =>
      face := Up;
  }

  lemma SignSetShrinks(w: Blocks, path: set<Pos>, c: Pos)
    requires IsSignAt(w, c) && c !in path
    ensures |SignSet(w) - (path + {c})| < |SignSet(w) - path|
  {
    assert SignSet(w) - path == (SignSet(w) - (path + {c})) + {c};
  }

  /** `findAttachedSigns` one level down, with the blocks on the recursion path. */
  function FindAttached(w: Blocks, b: Pos, path: set<Pos>): Result<seq<Pos>>
    decreases |SignSet(w) - path|, 6
  {
    Explore(w, b, path, SearchFaces)
  }

  /** The faces of `faces` in turn: each one that supports a sign contributes
      that sign followed by everything attached to it. */
  function Explore(w: Blocks, b: Pos, path: set<Pos>, faces: seq<Face>): Result<seq<Pos>>
    decreases |SignSet(w) - path|, |faces|
  {
    if faces == [] then Ok([])
    else
      var c := Relative(b, faces[0], 1);
      if !Supports(w, b, faces[0]) then Explore(w, b, path, faces[1..])
      else if c in path then Thrown(StackOverflow)
      else
        SignSetShrinks(w, path, c);
        match FindAttached(w, c, path + {c})
        case Thrown(e) => Thrown(e)
        case Ok(sub) =>
          match Explore(w, b, path, faces[1..])
          case Thrown(e) => Thrown(e)
          case Ok(more) => Ok([c] + sub + more)
  }

  /** `findAttachedSigns(block)`: the block itself starts the recursion path
      and is never checked. */
  function FindAttachedSigns(w: Blocks, b: Pos): Result<seq<Pos>> {
    FindAttached(w, b, {b})
  }

  /** `c` is attached to `b` through a chain of one or more signs. */
  ghost predicate Descends(w: Blocks, c: Pos, b: Pos) {
    exists n: nat :: n >= 1 && Ancestor(w, c, n) == Some(b)
  }

  /** One step of a successful search. */
  lemma ExploreStep(w: Blocks, b: Pos, path: set<Pos>, faces: seq<Face>)
    requires faces != [] && Explore(w, b, path, faces).Ok?
    ensures var c := Relative(b, faces[0], 1);
      && Explore(w, b, path, faces[1..]).Ok?
      && (!Supports(w, b, faces[0]) ==> Explore(w, b, path, faces) == Explore(w, b, path, faces[1..]))
      && (Supports(w, b, faces[0]) ==>
            && c !in path && IsSignAt(w, c)
            && |SignSet(w) - (path + {c})| < |SignSet(w) - path|
            && FindAttached(w, c, path + {c}).Ok?
            && Explore(w, b, path, faces).value ==
                 [c] + FindAttached(w, c, path + {c}).value + Explore(w, b, path, faces[1..]).value)
  {
    var c := Relative(b, faces[0], 1);
    if Supports(w, b, faces[0]) {
      SignSetShrinks(w, path, c);
    }
  }

  /** Everything found is a sign off the recursion path. */
  lemma {:induction false} ExploreSigns(w: Blocks, b: Pos, path: set<Pos>, faces: seq<Face>)
    requires Explore(w, b, path, faces).Ok?
    ensures forall c :: c in Explore(w, b, path, faces).value ==> IsSignAt(w, c) && c !in path
    decreases |SignSet(w) - path|, |faces|
  {
    if faces != [] {
      ExploreStep(w, b, path, faces);
      ExploreSigns(w, b, path, faces[1..]);
      if Supports(w, b, faces[0]) {
        var c := Relative(b, faces[0], 1);
        ExploreSigns(w, c, path + {c}, SearchFaces);
      }
    }
  }

  /** Everything found is attached to `b` through a chain of signs. */
  lemma {:induction false} ExploreDescends(w: Blocks, b: Pos, path: set<Pos>, faces: seq<Face>)
    requires Explore(w, b, path, faces).Ok?
    ensures forall c :: c in Explore(w, b, path, faces).value ==> Descends(w, c, b)
    decreases |SignSet(w) - path|, |faces|
  {
    if faces != [] {
      ExploreStep(w, b, path, faces);
      ExploreDescends(w, b, path, faces[1..]);
      if Supports(w, b, faces[0]) {
        var c := Relative(b, faces[0], 1);
        var sub := FindAttached(w, c, path + {c}).value;
        ExploreDescends(w, c, path + {c}, SearchFaces);
        SupportsIsChild(w, b, faces[0]);
        assert Ancestor(w, c, 1) == Some(b);
        forall x | x in sub ensures Descends(w, x, b) {
          assert Descends(w, x, c);
          var n: nat :| n >= 1 && Ancestor(w, x, n) == Some(c);
          assert Ancestor(w, x, n + 1) == Some(b);
        }
      }
    }
  }

  /** Every sign standing on `b` at one of `faces` is found. */
  lemma {:induction false} ExploreFaces(w: Blocks, b: Pos, path: set<Pos>, faces: seq<Face>)
    requires Explore(w, b, path, faces).Ok?
    ensures forall f :: f in faces && Supports(w, b, f) ==> Relative(b, f, 1) in Explore(w, b, path, faces).value
    decreases |faces|
  {
    if faces != [] {
      ExploreStep(w, b, path, faces);
      ExploreFaces(w, b, path, faces[1..]);
    }
  }

  /** Every sign attached to a found sign is found. */
  lemma {:induction false} ExploreClosed(w: Blocks, b: Pos, path: set<Pos>, faces: seq<Face>)
    requires Explore(w, b, path, faces).Ok?
    ensures forall a, c :: a in Explore(w, b, path, faces).value && Child(w, a, c) ==> c in Explore(w, b, path, faces).value
    decreases |SignSet(w) - path|, |faces|
  {
    if faces != [] {
      ExploreStep(w, b, path, faces);
      ExploreClosed(w, b, path, faces[1..]);
      if Supports(w, b, faces[0]) {
        var c := Relative(b, faces[0], 1);
        var sub := FindAttached(w, c, path + {c}).value;
        ExploreClosed(w, c, path + {c}, SearchFaces);
        ExploreFaces(w, c, path + {c}, SearchFaces);
        forall x | Child(w, c, x) ensures x in sub {
          var f := ChildThroughFace(w, c, x);
        }
      }
    }
  }

  /** Every sign that a chain of `n` attachments leads from to a found sign,
      or to `b`, is found. */
  lemma {:induction false} ClosedUnderDescent(w: Blocks, b: Pos, r: seq<Pos>, c: Pos, n: nat, a: Pos)
    requires forall x :: Child(w, b, x) ==> x in r
    requires forall y, x :: y in r && Child(w, y, x) ==> x in r
    requires n >= 1 && Ancestor(w, c, n) == Some(a) && (a == b || a in r)
    ensures c in r
    decreases n
  {
    var d := Ancestor(w, c, n - 1);
    assert d.Some? && Child(w, a, d.value);
    if n > 1 {
      ClosedUnderDescent(w, b, r, c, n - 1, d.value);
    }
  }

  /** The search returns exactly the signs attached to `b`, directly or
      through other signs, and never `b` itself. */
  lemma FindAttachedSignsExact(w: Blocks, b: Pos, c: Pos)
    requires FindAttachedSigns(w, b).Ok?
    ensures var r := FindAttachedSigns(w, b).value;
      && b !in r
      && (c in r ==> IsSignAt(w, c))
      && (c in r <==> Descends(w, c, b))
  {
    var r := FindAttachedSigns(w, b).value;
    ExploreSigns(w, b, {b}, SearchFaces);
    ExploreDescends(w, b, {b}, SearchFaces);
    ExploreFaces(w, b, {b}, SearchFaces);
    ExploreClosed(w, b, {b}, SearchFaces);
    forall x | Child(w, b, x) ensures x in r {
      var f := ChildThroughFace(w, b, x);
    }
    if Descends(w, c, b) {
      var n: nat :| n >= 1 && Ancestor(w, c, n) == Some(b);
      ClosedUnderDescent(w, b, r, c, n, b);
    }
  }

  /** Each sign hanging on a side of `b` facing away from it, and a sign post
      on top of `b`, is in the result. */
  lemma FindAttachedSignsNeighbours(w: Blocks, b: Pos, f: Face)
    requires FindAttachedSigns(w, b).Ok?
    requires f in SearchFaces && Supports(w, b, f)
    ensures Relative(b, f, 1) in FindAttachedSigns(w, b).value
  {
    ExploreFaces(w, b, {b}, SearchFaces);
  }

  /** A world where no wall sign hangs on another wall sign, which is every
      world the game can produce. */
  predicate NoWallSignOnWallSign(w: Blocks) {
    forall p :: p in w && w[p].WallSign? && w[p].facing in HorizontalFaces ==>
      !BlockAt(w, Relative(p, w[p].facing, -1)).WallSign?
  }

  /** Attachment strictly increases this rank in such a world. */
  function Rank(w: Blocks, p: Pos): int {
    2 * p.y + if BlockAt(w, p).WallSign? then 1 else 0
  }

  lemma ChildRaisesRank(w: Blocks, a: Pos, c: Pos)
    requires NoWallSignOnWallSign(w) && Child(w, a, c)
    ensures Rank(w, a) < Rank(w, c)
  {
  }

  lemma {:induction false} ExploreTerminates(w: Blocks, b: Pos, path: set<Pos>, faces: seq<Face>)
    requires NoWallSignOnWallSign(w)
    requires forall q :: q in path ==> Rank(w, q) <= Rank(w, b)
    ensures Explore(w, b, path, faces).Ok?
    decreases |SignSet(w) - path|, |faces|
  {
    if faces != [] {
      ExploreTerminates(w, b, path, faces[1..]);
      var c := Relative(b, faces[0], 1);
      if Supports(w, b, faces[0]) {
        SupportsIsChild(w, b, faces[0]);
        ChildRaisesRank(w, b, c);
        SignSetShrinks(w, path, c);
        ExploreTerminates(w, c, path + {c}, SearchFaces);
      }
    }
  }

  /** In a world the game can produce the search always completes. */
  lemma FindAttachedSignsTerminates(w: Blocks, b: Pos)
    requires NoWallSignOnWallSign(w)
    ensures FindAttachedSigns(w, b).Ok?
  {
    ExploreTerminates(w, b, {b}, SearchFaces);
  }

  lemma ExploreSkip(w: Blocks, b: Pos, path: set<Pos>, faces: seq<Face>)
    requires faces != [] && !Supports(w, b, faces[0])
    ensures Explore(w, b, path, faces) == Explore(w, b, path, faces[1..])
  {
  }

  lemma ExploreRevisit(w: Blocks, b: Pos, path: set<Pos>, faces: seq<Face>)
    requires faces != [] && Supports(w, b, faces[0]) && Relative(b, faces[0], 1) in path
    ensures Explore(w, b, path, faces) == Thrown(StackOverflow)
  {
  }

  lemma ExploreFound(w: Blocks, b: Pos, path: set<Pos>, faces: seq<Face>, sub: seq<Pos>, more: seq<Pos>)
    requires faces != [] && Supports(w, b, faces[0])
    requires var c := Relative(b, faces[0], 1);
      && c !in path
      && FindAttached(w, c, path + {c}) == Ok(sub)
      && Explore(w, b, path, faces[1..]) == Ok(more)
    ensures Explore(w, b, path, faces) == Ok([Relative(b, faces[0], 1)] + sub + more)
  {
  }

  /** Two wall signs hanging on each other make the search recurse forever. */
  lemma BackToBackWallSignsOverflow(lines: seq<string>)
    ensures var b := Pos(0, 0, 0, 0);
      var c := Pos(0, 1, 0, 0);
      FindAttachedSigns(map[b := WallSign(West, lines), c := WallSign(East, lines)], b) == Thrown(StackOverflow)
  {
    var b := Pos(0, 0, 0, 0);
    var c := Pos(0, 1, 0, 0);
    var w := map[b := WallSign(West, lines), c := WallSign(East, lines)];
    BackToBackSecond(w, lines);
    assert {b} + {c} == {b, c};
    assert SearchFaces == [North, South, East, West, Up];
    assert SearchFaces[1..] == [South, East, West, Up];
    assert Relative(b, East, 1) == c;
    ExploreFails(w, b, {b}, [East, West, Up]);
    ExploreSkip(w, b, {b}, [South, East, West, Up]);
    ExploreSkip(w, b, {b}, SearchFaces);
  }

  /** The second sign of the pair finds the first on its path again. */
  lemma BackToBackSecond(w: Blocks, lines: seq<string>)
    requires w == map[Pos(0, 0, 0, 0) := WallSign(West, lines), Pos(0, 1, 0, 0) := WallSign(East, lines)]
    ensures FindAttached(w, Pos(0, 1, 0, 0), {Pos(0, 0, 0, 0), Pos(0, 1, 0, 0)}) == Thrown(StackOverflow)
  {
    var b := Pos(0, 0, 0, 0);
    var c := Pos(0, 1, 0, 0);
    var path := {b, c};
    assert SearchFaces == [North, South, East, West, Up];
    assert Relative(c, West, 1) == b;
    ExploreRevisit(w, c, path, [West, Up]);
    ExploreSkip(w, c, path, [East, West, Up]);
    ExploreSkip(w, c, path, [South, East, West, Up]);
    ExploreSkip(w, c, path, SearchFaces);
  }

  /** A search that fails below a child fails as a whole. */
  lemma ExploreFails(w: Blocks, b: Pos, path: set<Pos>, faces: seq<Face>)
    requires faces != [] && Supports(w, b, faces[0])
    requires var c := Relative(b, faces[0], 1);
      c !in path && FindAttached(w, c, path + {c}).Thrown?
    ensures var c := Relative(b, faces[0], 1);
      Explore(w, b, path, faces) == Thrown(FindAttached(w, c, path + {c}).error)
  {
  }

  /** A wall sign on the north side facing north and a sign post on top are
      found, and nothing else. */
  lemma WallSignAndPostFound(lines: seq<string>)
    ensures var b := Pos(0, 0, 0, 0);
      var n := Pos(0, 0, 0, -1);
      var u := Pos(0, 0, 1, 0);
      FindAttachedSigns(map[n := WallSign(North, lines), u := SignPost(lines)], b) == Ok([n, u])
  {
    var b := Pos(0, 0, 0, 0);
    var n := Pos(0, 0, 0, -1);
    var u := Pos(0, 0, 1, 0);
    var w := map[n := WallSign(North, lines), u := SignPost(lines)];
    WallSignAndPostNorth(w, lines);
    WallSignAndPostTail(w, lines);
    assert {b} + {n} == {b, n};
    assert Relative(b, North, 1) == n;
    assert SearchFaces == [North, South, East, West, Up];
    ExploreFound(w, b, {b}, SearchFaces, [], [u]);
    assert [n] + [] + [u] == [n, u];
  }

  /** The wall sign of that world has nothing attached to it. */
  lemma WallSignAndPostNorth(w: Blocks, lines: seq<string>)
    requires w == map[Pos(0, 0, 0, -1) := WallSign(North, lines), Pos(0, 0, 1, 0) := SignPost(lines)]
    ensures FindAttached(w, Pos(0, 0, 0, -1), {Pos(0, 0, 0, 0), Pos(0, 0, 0, -1)}) == Ok([])
  {
    var n := Pos(0, 0, 0, -1);
    assert !Supports(w, n, North) && !Supports(w, n, South) && !Supports(w, n, East) && !Supports(w, n, West) && !Supports(w, n, Up);
    LeafFindsNothing(w, n, {Pos(0, 0, 0, 0), n});
  }

  /** After its north face, the search from the middle block finds only the
      sign post on top. */
  lemma WallSignAndPostTail(w: Blocks, lines: seq<string>)
    requires w == map[Pos(0, 0, 0, -1) := WallSign(North, lines), Pos(0, 0, 1, 0) := SignPost(lines)]
    ensures Explore(w, Pos(0, 0, 0, 0), {Pos(0, 0, 0, 0)}, [South, East, West, Up]) == Ok([Pos(0, 0, 1, 0)])
  {
    var b := Pos(0, 0, 0, 0);
    WallSignAndPostUp(w, lines);
    assert [West, Up][1..] == [Up] && [East, West, Up][1..] == [West, Up];
    assert [South, East, West, Up][1..] == [East, West, Up];
    assert !Supports(w, b, South) && !Supports(w, b, East) && !Supports(w, b, West);
    ExploreSkip(w, b, {b}, [West, Up]);
    ExploreSkip(w, b, {b}, [East, West, Up]);
    ExploreSkip(w, b, {b}, [South, East, West, Up]);
  }

  /** The search through the top face finds the sign post alone. */
  lemma WallSignAndPostUp(w: Blocks, lines: seq<string>)
    requires w == map[Pos(0, 0, 0, -1) := WallSign(North, lines), Pos(0, 0, 1, 0) := SignPost(lines)]
    ensures Explore(w, Pos(0, 0, 0, 0), {Pos(0, 0, 0, 0)}, [Up]) == Ok([Pos(0, 0, 1, 0)])
  {
    var b := Pos(0, 0, 0, 0);
    var u := Pos(0, 0, 1, 0);
    WallSignAndPostPost(w, lines);
    assert {b} + {u} == {b, u};
    assert Relative(b, Up, 1) == u;
    ExploreFound(w, b, {b}, [Up], [], []);
    assert [u] + [] + [] == [u];
  }

  /** The sign post of that world has nothing attached to it. */
  lemma WallSignAndPostPost(w: Blocks, lines: seq<string>)
    requires w == map[Pos(0, 0, 0, -1) := WallSign(North, lines), Pos(0, 0, 1, 0) := SignPost(lines)]
    ensures FindAttached(w, Pos(0, 0, 1, 0), {Pos(0, 0, 0, 0), Pos(0, 0, 1, 0)}) == Ok([])
  {
    var u := Pos(0, 0, 1, 0);
    assert !Supports(w, u, North) && !Supports(w, u, South) && !Supports(w, u, East) && !Supports(w, u, West) && !Supports(w, u, Up);
    LeafFindsNothing(w, u, {Pos(0, 0, 0, 0), u});
  }

  /** A sign with nothing attached to it on any search face contributes
      nothing below itself. */
  lemma LeafFindsNothing(w: Blocks, b: Pos, path: set<Pos>)
    requires !Supports(w, b, North) && !Supports(w, b, South) && !Supports(w, b, East)
    requires !Supports(w, b, West) && !Supports(w, b, Up)
    ensures FindAttached(w, b, path) == Ok([])
  {
    assert SearchFaces == [North, South, East, West, Up];
    ExploreSkip(w, b, path, [Up]);
    ExploreSkip(w, b, path, [West, Up]);
    ExploreSkip(w, b, path, [East, West, Up]);
    ExploreSkip(w, b, path, [South, East, West, Up]);
    ExploreSkip(w, b, path, SearchFaces);
  }
}
