/** Shared vocabulary of the radiation-storm model: optional values and
    results, the host platform's small integer types, positions, players and
    the abstract log of side effects the plugin issues to the game server. */
module Common {

  datatype Option<+T> = None | Some(value: T)

  datatype Result<+T, +E> = Success(value: T) | Failure(error: E)

  /** Unsigned 8- and 16-bit and signed 16-bit integers of the host platform. */
  type Byte = n: nat | n < 0x100
  type UShort = n: nat | n < 0x1_0000
  type Short = n: int | -0x8000 <= n < 0x8000

  /** A point in time in seconds since the platform's minimum date, so the
      minimum date itself is 0 and no clock reading lies before it. */
  type Instant = t: real | 0.0 <= t

  const MinTime: Instant := 0.0

  function Max(a: real, b: real): (m: real)
    ensures a <= m && b <= m
    ensures m == a || m == b
  {
    if a >= b then a else b
  }

  datatype Vec3 = Vec3(x: real, y: real, z: real)

  /** Squared Euclidean distance (the engine's `sqrMagnitude` of a difference). */
  function SqrDistance(a: Vec3, b: Vec3): real
  {
    var dx := a.x - b.x;
    var dy := a.y - b.y;
    var dz := a.z - b.z;
    dx * dx + dy * dy + dz * dz
  }

  /** Steam identifier of a connected client. */
  type PlayerId = nat

  /** A connected client as the plugin sees it on one pass over the client list. */
  datatype Player = Player(id: PlayerId, dead: bool, admin: bool, position: Vec3)

  /** Connected clients carry pairwise distinct identifiers. */
  ghost predicate DistinctIds(ps: seq<Player>)
  {
    forall i, j :: 0 <= i < j < |ps| ==> ps[i].id != ps[j].id
  }

  /** Side effects the plugin asks the server for, in issue order. */
  datatype Command =
    | SendEffect(player: PlayerId, effect: UShort, key: Short)
    | ClearEffect(player: PlayerId, effect: UShort)
    | Damage(player: PlayerId, amount: Byte)
    | Broadcast(message: string)
    | Weather(command: string)

  /** The command is addressed to the given player. */
  predicate Concerns(c: Command, id: PlayerId)
  {
    (c.SendEffect? || c.ClearEffect? || c.Damage?) && c.player == id
  }
}
