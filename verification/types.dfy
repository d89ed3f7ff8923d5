/** The shared vocabulary of the combat module: player identities, the turn
    phase enumeration and the numeric components attached to entities. */
module Types {

  /** Rust's `u8`. */
  type U8 = x: int | 0 <= x < 256

  /** `n as u8`: keeps the low eight bits. */
  function TruncateU8(n: nat): (r: U8)
    ensures n < 256 ==> r == n
    ensures (r - n) % 256 == 0
  {
    n % 256
  }

  /** Entity id of a card. */
  type CardId = nat

  /** `PlayerReference`: the human side and the computer side. */
  datatype PlayerRef = Player | Ai

  /** The other side of the table. */
  function Other(p: PlayerRef): (r: PlayerRef)
    ensures r != p
  {
    if p == Player then Ai else Player
  }

  /** `TurnState`, declared in phase order; `DrawCard` is the default. */
  datatype TurnState =
    | DrawCard
    | PlayCreature
    | SelectAttackers
    | SelectDefenders
    | ResolveCombat
    | Heal
    | EndOfTurn

  /** `Hp` component. */
  datatype Hp = Hp(maxHp: U8, currentHp: U8)

  /** `Costs` component. */
  datatype Costs = Costs(cast: U8, minimum: U8)
}
