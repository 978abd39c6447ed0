/** The part of the Bukkit server the sign subsystem sees, as plain values:
    block positions, locations, block faces, the kinds of block that matter
    (wall signs, sign posts, anything else), players with their permissions
    and the cancelled flag every protected event carries. */
module Bukkit {
  import opened Lang

  /** The UUID of a world. */
  type Uid = int

  /** A block position: a world (always present) and integer coordinates. */
  datatype Pos = Pos(world: Uid, x: int, y: int, z: int)

  /** A `Location`: its world reference may be null, for instance after loading
      an entry whose world is not loaded. Only block coordinates are modelled. */
  datatype Location = Location(world: Option<Uid>, x: int, y: int, z: int)

  /** `block.getLocation()`. */
  function LocationOf(p: Pos): (l: Location)
    ensures l.world == Some(p.world) && l.x == p.x && l.y == p.y && l.z == p.z
  {
    Location(Some(p.world), p.x, p.y, p.z)
  }

  /** `location.getBlock()`: raises NullPointerException for a null world. */
  function BlockOf(l: Location): (r: Result<Pos>)
    ensures r.Ok? <==> l.world.Some?
    ensures r.Ok? ==> LocationOf(r.value) == l
  {
    match l.world
    case None => Thrown(NullPointer)
    case Some(u) => Ok(Pos(u, l.x, l.y, l.z))
  }

  lemma LocationOfInjective(p: Pos, q: Pos)
    requires LocationOf(p) == LocationOf(q)
    ensures p == q
  {
  }

  /** The `BlockFace` values the subsystem uses. */
  datatype Face = North | South | East | West | Up | Down

  /** The four horizontal faces, in the order the attachment search tries them. */
  const HorizontalFaces: seq<Face> := [North, South, East, West]

  /** `block.getRelative(face, distance)`: `distance` steps towards `face`,
      with Bukkit's axes (NORTH is -z, SOUTH +z, EAST +x, WEST -x, UP +y,
      DOWN -y). */
  function Relative(p: Pos, f: Face, n: int): (r: Pos)
    ensures r.world == p.world
  {
    match f
    case North => Pos(p.world, p.x, p.y, p.z - n)
    case South => Pos(p.world, p.x, p.y, p.z + n)
    case East => Pos(p.world, p.x + n, p.y, p.z)
    case West => Pos(p.world, p.x - n, p.y, p.z)
    case Up => Pos(p.world, p.x, p.y + n, p.z)
    case Down => Pos(p.world, p.x, p.y - n, p.z)
  }

  /** One step to a face and one step back return to the start. */
  lemma RelativeBack(p: Pos, f: Face)
    ensures Relative(Relative(p, f, 1), f, -1) == p
  {
  }

  /** The blocks the subsystem tells apart: a wall sign with the face it looks
      towards, a sign post, and every other material. Signs carry their four
      lines of text. */
  datatype Block =
    | Other
    | WallSign(facing: Face, lines: seq<string>)
    | SignPost(lines: seq<string>)
  {
    /** `MineAuctionSign.isSign`: the material is SIGN_POST or WALL_SIGN. */
    predicate IsSign() {
      WallSign? || SignPost?
    }

    /** The same block with other text. */
    function WithLines(text: seq<string>): (b: Block)
      requires IsSign()
      ensures b.IsSign() && b.lines == text
      ensures WallSign? ==> b.WallSign? && b.facing == facing
      ensures SignPost? ==> b.SignPost?
    {
      match this
      case WallSign(f, _) => WallSign(f, text)
      case SignPost(_) => SignPost(text)
    }
  }

  /** The blocks of all worlds; a position absent from the map holds `Other`. */
  type Blocks = map<Pos, Block>

  function BlockAt(w: Blocks, p: Pos): Block {
    if p in w then w[p] else Other
  }

  predicate IsSignAt(w: Blocks, p: Pos) {
    BlockAt(w, p).IsSign()
  }

  /** Every sign in the world shows exactly four lines. */
  predicate FourLines(w: Blocks) {
    forall p :: p in w && w[p].IsSign() ==> |w[p].lines| == 4
  }

  /** The running server: the worlds it has loaded and the blocks in them. */
  class Server {
    const worlds: set<Uid>
    var blocks: Blocks

    ghost predicate Valid()
      reads this
    {
      FourLines(blocks)
    }

    constructor (worlds: set<Uid>, blocks: Blocks)
      requires FourLines(blocks)
      ensures Valid() && this.worlds == worlds && this.blocks == blocks
    {
      this.worlds := worlds;
      this.blocks := blocks;
    }
  }

  /** `server.getWorld(uid)`: the loaded world with that UUID, or null. */
  function GetWorld(worlds: set<Uid>, u: Uid): (r: Option<Uid>)
    ensures r.Some? <==> u in worlds
    ensures r.Some? ==> r.value == u
  {
    if u in worlds then Some(u) else None
  }

  /** A player, known by name and by the permissions it holds. */
  datatype Player = Player(name: string, permissions: set<string>)
  {
    predicate HasPermission(node: string) {
      node in permissions
    }
  }

  /** A `Cancellable` event. */
  class Event {
    var cancelled: bool

    constructor (cancelled: bool)
      ensures this.cancelled == cancelled
    {
      this.cancelled := cancelled;
    }
  }

  /** A `SignChangeEvent`: the sign block being written, the player writing
      it, and the four lines it will show, which handlers may rewrite. */
  class SignChangeEvent {
    const block: Pos
    const player: Player
    var lines: seq<string>

    constructor (block: Pos, player: Player, lines: seq<string>)
      ensures this.block == block && this.player == player && this.lines == lines
    {
      this.block := block;
      this.player := player;
      this.lines := lines;
    }
  }

  /** `ChatColor.COLOR_CHAR`, the section sign. */
  const ColorChar: char := '\U{A7}'

  /** `ChatColor.RED.toString()`. */
  const Red: string := [ColorChar, 'c']
}
