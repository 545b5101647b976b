/** The catalogue of guest types ("phobias") and the ways the game samples from it. */
module Phobias {
  import opened Wrappers
  import opened Seqs

  /** The eight guest types; each one is also the aversion a guest may have. */
  datatype Phobia = Red | Green | Blue | Yellow | Purple | Orange | Hotpink | Cyan

  /** `PHOBIAS`, in the order the game lists them. */
  const PHOBIAS: seq<Phobia> := [Red, Green, Blue, Yellow, Purple, Orange, Hotpink, Cyan]

  /** The catalogue has eight entries, no two alike, and holds every guest type. */
  lemma PhobiasDistinct()
    ensures |PHOBIAS| == 8
    ensures forall i, j :: 0 <= i < j < |PHOBIAS| ==> PHOBIAS[i] != PHOBIAS[j]
    ensures forall p: Phobia :: p in PHOBIAS
  {
    forall p: Phobia
      ensures p in PHOBIAS
    {
      match p
      case Red => assert PHOBIAS[0] == p;
      case Green => assert PHOBIAS[1] == p;
      case Blue => assert PHOBIAS[2] == p;
      case Yellow => assert PHOBIAS[3] == p;
      case Purple => assert PHOBIAS[4] == p;
      case Orange => assert PHOBIAS[5] == p;
      case Hotpink => assert PHOBIAS[6] == p;
      case Cyan => assert PHOBIAS[7] == p;
    }
  }

  /** The English display name of a type. */
  function PhobiaName(p: Phobia): string {
    match p
    case Red => "Erythrophobia"
    case Green => "Chlorophobia"
    case Blue => "Cyanophobia"
    case Yellow => "Xanthophobia"
    case Purple => "Porphyrophobia"
    case Orange => "Chrysophobia"
    case Hotpink => "Rhodophobia"
    case Cyan => "Glaucophobia"
  }

  /** `getPhobiaName`: the empty string for no phobia, otherwise the type's display name. */
  function GetPhobiaName(p: Option<Phobia>): (r: string)
    ensures r == "" <==> p.None?
  {
    match p
    case None => ""
    case Some(q) => PhobiaName(q)
  }

  /** Different types never share a display name. */
  lemma PhobiaNameInjective(p: Phobia, q: Phobia)
    requires GetPhobiaName(Some(p)) == GetPhobiaName(Some(q))
    ensures p == q
  {
  }

  /** `getRandomPhobia(pool)` with the random pick supplied as `choice`: an item of the pool. */
  function GetRandomPhobia(pool: seq<Phobia>, choice: nat): (r: Phobia)
    requires choice < |pool|
    ensures r in pool
  {
    pool[choice]
  }

  /** The pool without the excluded entries; `excluded` may hold `undefined`. */
  function RemainingPool(excluded: seq<Option<Phobia>>, pool: seq<Phobia>): (r: seq<Phobia>)
    ensures forall p :: p in r <==> p in pool && Some(p) !in excluded
  {
    Filter(pool, (p: Phobia) => Some(p) !in excluded)
  }

  /**
   * `getRandomPhobiaExcluding(excluded, pool)` with the random pick supplied as `choice`.
   * The pick is from the pool without the excluded entries; an empty remainder gives `undefined`.
   */
  function GetRandomPhobiaExcluding(excluded: seq<Option<Phobia>>, pool: seq<Phobia>, choice: nat): (r: Option<Phobia>)
    requires choice < |RemainingPool(excluded, pool)| || |RemainingPool(excluded, pool)| == 0
    ensures r.None? <==> (forall p :: p in pool ==> Some(p) in excluded)
    ensures r.Some? ==> r.value in pool && Some(r.value) !in excluded
  {
    var remaining := RemainingPool(excluded, pool);
    if |remaining| == 0 then
      assert forall p :: p in pool ==> Some(p) in excluded;
      None
    else
      assert remaining[0] in pool;
      Some(remaining[choice])
  }
}
