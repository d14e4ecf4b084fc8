/** The player snapshot (Player/PlayerInfo.cs): a value whose identity is its name. */
module Players {
  import opened Wrappers

  /** `PlayerStatus`. */
  datatype PlayerStatus = NotPlaying | Waiting | DoesTurn | Folded | Spectating

  /** `PlayerRole` is a [Flags] enum: a combination of the bits below. */
  type PlayerRole = bv8

  const NoRole: PlayerRole := 0
  const Button: PlayerRole := 1
  const SmallBlind: PlayerRole := 2
  const BigBlind: PlayerRole := 4
  const DealerAndSB: PlayerRole := 3

  /** The named combination `DealerAndSB` is the button bit together with the small blind bit. */
  lemma DealerAndSBIsButtonAndSmallBlind()
    ensures DealerAndSB == Button | SmallBlind
    ensures DealerAndSB & BigBlind == NoRole
  {
  }

  /** `PlayerInfo`, a struct copied by value: the name never changes, the rest is the
      state of the player at the moment the copy was taken. */
  datatype PlayerInfo = PlayerInfo(
    name: string,
    status: PlayerStatus,
    stack: int,
    currentStake: int,
    role: PlayerRole,
    isConnected: bool)

  /** The constructor `PlayerInfo(name, stack)`: not playing, no role, connected (the field
      initialiser) and no stake (the struct default). */
  function NewPlayerInfo(name: string, stack: int): (p: PlayerInfo)
    ensures p.name == name && p.stack == stack
    ensures p.status == NotPlaying && p.role == NoRole && p.isConnected && p.currentStake == 0
  {
    PlayerInfo(name, NotPlaying, stack, 0, NoRole, true)
  }

  /** `Equals`: two snapshots denote the same player exactly when their names agree. */
  predicate SamePlayer(a: PlayerInfo, b: PlayerInfo) {
    a.name == b.name
  }

  /** Equality looks at the name only: a snapshot equals every later state of the player,
      and it is an equivalence. */
  lemma SamePlayerIgnoresState(a: PlayerInfo, b: PlayerInfo, c: PlayerInfo)
    ensures SamePlayer(a, a.(status := b.status, stack := b.stack, currentStake := b.currentStake,
                             role := b.role, isConnected := b.isConnected))
    ensures SamePlayer(a, b) == SamePlayer(b, a)
    ensures SamePlayer(a, b) && SamePlayer(b, c) ==> SamePlayer(a, c)
  {
  }

  /** `ToString` prints the name. */
  function ToString(p: PlayerInfo): (s: string)
    ensures s == p.name
  {
    p.name
  }

  /** The names of a sequence of snapshots, in order. */
  function Names(ps: seq<PlayerInfo>): (ns: seq<string>)
    ensures |ns| == |ps|
    ensures forall i | 0 <= i < |ps| :: ns[i] == ps[i].name
  {
    seq(|ps|, i requires 0 <= i < |ps| => ps[i].name)
  }

  /** `Array.IndexOf` with the name-only equality: the first index holding that name. */
  function IndexOfName(ps: seq<PlayerInfo>, name: string): (r: Option<nat>)
    ensures r.None? <==> name !in Names(ps)
    ensures r.Some? ==> r.value < |ps| && ps[r.value].name == name
    ensures r.Some? ==> forall j | 0 <= j < r.value :: ps[j].name != name
  {
    if ps == [] then None
    else if ps[0].name == name then Some(0)
    else
      match IndexOfName(ps[1..], name)
      case None => None
      case Some(i) => Some(i + 1)
  }
}
