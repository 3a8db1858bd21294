/** Dealing a board (script.js:78-88): the pair count chosen from the
    viewport, the pool of flowers, and the shuffled doubled pool. A flower
    is held as its position in FLOWERS (see Flowers.Symbol). */
module Deck {
  import opened Flowers
  import Shuffle

  /** script.js:32 and 79: six pairs on a narrow viewport (at most 420 wide,
      or a touch screen under 500 wide), eight otherwise. */
  function PairsFor(innerWidth: int, touch: bool): (pairs: nat)
    ensures pairs == 6 || pairs == 8
    ensures pairs == 6 <==> innerWidth <= 420 || (touch && innerWidth < 500)
  {
    if innerWidth <= 420 || (touch && innerWidth < 500) then 6 else 8
  }

  /** The pool after `pairs` rounds of the dealing loop: flower `k` modulo
      ten at position `k`, starting over at the first flower when the list
      runs out. */
  function Pool(pairs: nat): (pool: seq<nat>)
    ensures |pool| == pairs
  {
    if pairs == 0 then [] else Pool(pairs - 1) + [(pairs - 1) % FLOWER_COUNT]
  }

  /** The deck before shuffling: the pool followed by a copy of itself. */
  function Paired(pairs: nat): (deck: seq<nat>)
    ensures |deck| == 2 * pairs
  {
    Pool(pairs) + Pool(pairs)
  }

  /** A dealt deck: a rearrangement of the doubled pool. */
  ghost predicate IsDeal(deck: seq<nat>, pairs: nat) {
    multiset(deck) == multiset(Paired(pairs))
  }

  /** script.js:81-86: push flowers, cycling through the list, until the pool
      holds `pairs` of them. */
  method BuildPool(pairs: nat) returns (pool: seq<nat>)
    ensures pool == Pool(pairs)
    ensures forall k :: 0 <= k < pairs ==> pool[k] == k % FLOWER_COUNT
  {
    pool := [];
    var i := 0;
    while |pool| < pairs
      invariant i == |pool| <= pairs
      invariant pool == Pool(i)
      invariant forall k :: 0 <= k < i ==> pool[k] == k % FLOWER_COUNT
    {
      pool := pool + [i % FLOWER_COUNT];
      i := i + 1;
    }
  }

  /** A fresh array holding `s` (the spread `[...pool, ...pool]`). */
  method ArrayOf(s: seq<nat>) returns (a: array<nat>)
    ensures fresh(a) && a[..] == s
  {
    a := new nat[|s|](i requires 0 <= i < |s| => s[i]);
  }

  /** script.js:81-87: build the pool, copy it twice into a fresh array and
      shuffle that array in place with the draws `js`. */
  method DealDeck(pairs: nat, js: seq<nat>) returns (deck: seq<nat>)
    requires Shuffle.ValidDraws(js, 2 * pairs)
    ensures deck == Shuffle.Shuffled(Paired(pairs), js, 2 * pairs - 1)
  {
    var pool := BuildPool(pairs);
    var doubled := pool + pool;
    assert doubled == Paired(pairs);
    var a := ArrayOf(doubled);
    ghost var before := a[..];
    assert before == Paired(pairs) && a.Length == 2 * pairs;
    Shuffle.ShuffleInPlace(a, js);
    deck := a[..];
  }

  /** Whatever the draws, the dealt deck is a rearrangement of the doubled
      pool; and every rearrangement of it is dealt by some draws. */
  lemma {:induction false} DealtIffDeal(pairs: nat, deck: seq<nat>)
    ensures (exists js :: Shuffle.ValidDraws(js, 2 * pairs) && deck == Shuffle.Shuffled(Paired(pairs), js, 2 * pairs - 1))
            <==> IsDeal(deck, pairs)
  {
    if IsDeal(deck, pairs) {
      var js := Shuffle.EveryArrangementReachable(Paired(pairs), deck);
    }
    if exists js :: Shuffle.ValidDraws(js, 2 * pairs) && deck == Shuffle.Shuffled(Paired(pairs), js, 2 * pairs - 1) {
      var js :| Shuffle.ValidDraws(js, 2 * pairs) && deck == Shuffle.Shuffled(Paired(pairs), js, 2 * pairs - 1);
      Shuffle.ShuffledPermutes(Paired(pairs), js, 2 * pairs - 1);
    }
  }

  /** With no more pairs than flowers, the pool is the flowers `0 .. pairs-1`
      in order, each once. */
  lemma {:induction false} PoolIsFirstFlowers(pairs: nat)
    requires pairs <= FLOWER_COUNT
    ensures forall k :: 0 <= k < pairs ==> Pool(pairs)[k] == k
    ensures NoDup(Pool(pairs))
  {
    if pairs > 0 {
      PoolIsFirstFlowers(pairs - 1);
    }
  }

  /** The doubled pool holds each of the flowers `0 .. pairs-1` twice. */
  lemma {:induction false} PairedCount(pairs: nat, f: nat)
    requires pairs <= FLOWER_COUNT
    ensures multiset(Paired(pairs))[f] == if f < pairs then 2 else 0
  {
    var pool := Pool(pairs);
    PoolIsFirstFlowers(pairs);
    NoDupCount(pool, f);
    assert f in pool <==> f < pairs by {
      if f < pairs { assert pool[f] == f; }
    }
    assert multiset(Paired(pairs)) == multiset(pool) + multiset(pool);
  }

  /** Every dealt deck with at most ten pairs holds each of the flowers
      `0 .. pairs-1` exactly twice and nothing else; those flowers show
      pairwise different symbols, so the board has exactly `pairs`
      different symbols. */
  lemma {:induction false} DealHasEachFlowerTwice(deck: seq<nat>, pairs: nat)
    requires pairs <= FLOWER_COUNT && IsDeal(deck, pairs)
    ensures |deck| == 2 * pairs
    ensures forall f: nat :: multiset(deck)[f] == if f < pairs then 2 else 0
    ensures forall f, g :: 0 <= f < g < pairs ==> Symbol(f) != Symbol(g)
  {
    calc {
      |deck|;
      |multiset(deck)|;
      |multiset(Paired(pairs))|;
      2 * pairs;
    }
    forall f: nat
      ensures multiset(deck)[f] == if f < pairs then 2 else 0
    {
      PairedCount(pairs, f);
    }
    forall f, g | 0 <= f < g < pairs
      ensures Symbol(f) != Symbol(g)
    {
      SameSymbolIffSameFlower(f, g);
    }
  }
}
