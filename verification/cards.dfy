/** Cards: the gameplay record a card is defined by, the components a card
    entity carries once spawned, and the pure projections the renderer reads
    from those components (shown side, tint, stat and cost labels). */
module Cards {
  import opened Wrappers
  import opened Types
  import opened Decimal
  import Seqs

  /** `CardGameplayInfo`: the immutable numbers of a card definition. */
  datatype CardGameplayInfo = CardGameplayInfo(castCrowd: U8, minimumCrowd: U8, hp: U8, power: U8)

  /** `CardInfo` without its image handle. */
  datatype CardInfo = CardInfo(gameplay: CardGameplayInfo, name: string, flavorText: Option<string>)

  /** The components of one card entity. Marker components (`InHand`,
      `Focused`, `AllowedToPlay`, `CardGray`) are booleans; `owner` is the
      `PlayerReference` component, which a card only receives when drawn. */
  datatype CardEntity = CardEntity(
    name: string,
    showFront: bool,
    hp: Hp,
    power: U8,
    costs: Costs,
    owner: Option<PlayerRef>,
    inHand: bool,
    focused: bool,
    allowed: bool,
    gray: bool)

  /** The gameplay record recovered from a card's components. */
  function Gameplay(c: CardEntity): CardGameplayInfo {
    CardGameplayInfo(c.costs.cast, c.costs.minimum, c.hp.maxHp, c.power)
  }

  /** `spawn_card`: a face-down, unowned card whose components carry the
      definition's numbers, at full health. */
  function SpawnCard(info: CardInfo): (c: CardEntity)
    ensures Gameplay(c) == info.gameplay
    ensures c.hp.currentHp == c.hp.maxHp
    ensures c.name == info.name
    ensures !c.showFront
    ensures c.owner.None? && !c.inHand && !c.focused && !c.allowed && !c.gray
  {
    var g := info.gameplay;
    CardEntity(
      info.name, false, Hp(g.hp, g.hp), g.power, Costs(g.castCrowd, g.minimumCrowd),
      None, false, false, false, false)
  }

  /** Inverse of `SlashLabel`: splits at the first '/' and reads both numerals. */
  function ParseSlashLabel(s: string): Option<(nat, nat)> {
    match Seqs.IndexOf(s, '/')
    case None => None
    case Some(i) =>
      var left := s[..i];
      var right := s[i + 1..];
      if 0 < |left| && 0 < |right| && AllDigits(left) && AllDigits(right)
      then Some((ParseNat(left), ParseNat(right)))
      else None
  }

  /** `format!("{}/{}", left, right)`. */
  function SlashLabel(left: nat, right: nat): (s: string)
    ensures ParseSlashLabel(s) == Some((left, right))
  {
    var a := NatToString(left);
    var b := NatToString(right);
    SplitAtSlash(a, b);
    ParseNatToString(left);
    ParseNatToString(right);
    a + "/" + b
  }

  /** Two numerals joined by '/' split back into the same two numerals. */
  lemma SplitAtSlash(a: string, b: string)
    requires 0 < |a| && 0 < |b| && AllDigits(a) && AllDigits(b)
    ensures ParseSlashLabel(a + "/" + b) == Some((ParseNat(a), ParseNat(b)))
  {
    var s := a + "/" + b;
    assert s[|a|] == '/';
    assert forall j :: 0 <= j < |a| ==> s[j] == a[j] && IsDigit(s[j]);
    assert Seqs.IndexOf(s, '/') == Some(|a|);
    assert s[..|a|] == a;
    assert s[|a| + 1..] == b;
  }

  /** `update_card_stats`: the label reads "power/current hp". */
  function StatsLabel(c: CardEntity): (s: string)
    ensures ParseSlashLabel(s) == Some((c.power as nat, c.hp.currentHp as nat))
  {
    SlashLabel(c.power, c.hp.currentHp)
  }

  /** `update_card_crowd`: the label reads "minimum/cast". */
  function CostsLabel(c: CardEntity): (s: string)
    ensures ParseSlashLabel(s) == Some((c.costs.minimum as nat, c.costs.cast as nat))
  {
    SlashLabel(c.costs.minimum, c.costs.cast)
  }

  /** Bevy's `Visibility` as used for the two sides of a card. */
  datatype Visibility = Inherited | Hidden

  /** `update_shown_side`, front child. */
  function FrontVisibility(showFront: bool): (v: Visibility)
    ensures v == Inherited <==> showFront
  {
    if showFront then Inherited else Hidden
  }

  /** `update_shown_side`, back child. */
  function BackVisibility(showFront: bool): (v: Visibility)
    ensures v == Inherited <==> !showFront
  {
    if showFront then Hidden else Inherited
  }

  /** Exactly one side of any card is visible. Kept as documentation of the
      two visibility queries; it follows by unfolding. */
  lemma ExactlyOneSideVisible(c: CardEntity)
    ensures (FrontVisibility(c.showFront) == Inherited) != (BackVisibility(c.showFront) == Inherited)
    ensures FrontVisibility(c.showFront) == Inherited <==> c.showFront
  {
  }

  /** The two colours `set_grayscale` paints the front and the art with. */
  datatype Tint = Gray700 | White

  /** `set_grayscale`: grey exactly when the card carries `CardGray`. */
  function TintOf(c: CardEntity): (t: Tint)
    ensures t == Gray700 <==> c.gray
    ensures t == White <==> !c.gray
  {
    if c.gray then Gray700 else White
  }
}
