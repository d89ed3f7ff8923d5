/** `GlobalCards::new`: the card catalogue and the deck built from it. */
module Decks {
  import opened Wrappers
  import opened Types
  import opened Cards

  const TestUnit: CardInfo :=
    CardInfo(CardGameplayInfo(0, 0, 2, 2), "Test Unit", Some("Beep Boop, debugging is fun"))

  const Ghost: CardInfo :=
    CardInfo(CardGameplayInfo(1, 0, 1, 1), "Ghost", Some("I am very scary :P"))

  /** The base set, in declaration order. */
  const Base: seq<CardInfo> := [TestUnit, Ghost]

  /** How many times the base set is appended to the deck. */
  const Repetitions: nat := 10

  /** `n` copies of `base`, each appended after the previous ones
      (`extend_from_slice` in a loop). */
  function Replicate<T>(base: seq<T>, n: nat): (r: seq<T>)
    ensures |r| == |base| * n
    ensures forall i :: 0 <= i < |r| ==> r[i] == base[i % |base|]
  {
    if n == 0 then []
    else
      var prev := Replicate(base, n - 1);
      var r := prev + base;
      forall i | |prev| <= i < |r|
        ensures r[i] == base[i % |base|]
      {
        ModuloShift(i - |prev|, |base|, n - 1);
      }
      r
  }

  /** The remainder of `b * k + j` by `b` is `j` when `j < b`. */
  lemma ModuloShift(j: nat, b: nat, k: nat)
    requires j < b
    ensures (b * k + j) % b == j
  {
    var x := b * k + j;
    var q, r := x / b, x % b;
    assert x == b * q + r;
    var d := k - q;
    assert b * d == r - j by {
      assert b * k - b * q == b * d;
    }
    MulMagnitude(b, d);
  }

  /** A nonzero multiple of `b` is at least `b` away from zero. */
  lemma MulMagnitude(b: int, d: int)
    requires b > 0
    ensures d >= 1 ==> b * d >= b
    ensures d <= -1 ==> b * d <= -b
  {
    assert b * d == b * (d - 1) + b;
    assert b * d == b * (d + 1) - b;
  }

  /** Each element occurs `n` times as often in the replication as in the base. */
  lemma {:induction false} ReplicateCount<T>(base: seq<T>, n: nat, x: T)
    ensures multiset(Replicate(base, n))[x] == n * multiset(base)[x]
  {
    if n > 0 {
      ReplicateCount(base, n - 1, x);
      assert Replicate(base, n) == Replicate(base, n - 1) + base;
      var m := multiset(base)[x];
      assert multiset(Replicate(base, n))[x] == (n - 1) * m + m;
      assert (n - 1) * m + m == n * m;
    }
  }

  /** The session's global deck: the base set repeated `Repetitions` times. */
  function GlobalCards(): (r: seq<CardInfo>)
    ensures |r| == 20
    ensures forall i :: 0 <= i < |r| ==> r[i] == Base[i % 2]
  {
    Replicate(Base, Repetitions)
  }

  /** The catalogue holds exactly the two named cards, and the deck holds ten of each. */
  lemma GlobalCardsComposition()
    ensures |Base| == 2 && Base[0].name == "Test Unit" && Base[1].name == "Ghost"
    ensures multiset(GlobalCards())[TestUnit] == 10
    ensures multiset(GlobalCards())[Ghost] == 10
    ensures |GlobalCards()| == multiset(GlobalCards())[TestUnit] + multiset(GlobalCards())[Ghost]
  {
    ReplicateCount(Base, Repetitions, TestUnit);
    ReplicateCount(Base, Repetitions, Ghost);
    assert multiset(Base)[TestUnit] == 1;
    assert multiset(Base)[Ghost] == 1;
  }

  /** Costs of the two definitions: "Test Unit" is castable at crowd 0 and
      "Ghost" needs one card on the battlefield; neither has a minimum.
      Kept as documentation of the catalogue; it follows by unfolding. */
  lemma CatalogueCosts()
    ensures TestUnit.gameplay.castCrowd == 0 && Ghost.gameplay.castCrowd == 1
    ensures forall c :: c in Base ==> c.gameplay.minimumCrowd == 0
  {
  }
}
