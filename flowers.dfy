/** The flower symbols of script.js:3 that the board deals, and what is
    known about them. */
module Flowers {
  const FLOWERS: seq<string> := ["🌸", "🌺", "🌼", "🌻", "💐", "🌷", "🌹", "🥀", "🌱", "🌿"]

  /** The length of FLOWERS. Elsewhere a flower is held as its position
      `f < FLOWER_COUNT` in FLOWERS, and `Symbol(f)` is what it shows. */
  const FLOWER_COUNT: nat := 10

  function Symbol(f: nat): string
    requires f < FLOWER_COUNT
  {
    FLOWERS[f]
  }

  /** No element occurs twice. */
  predicate NoDup<T(==)>(s: seq<T>) {
    forall i, j :: 0 <= i < j < |s| ==> s[i] != s[j]
  }

  /** The ten flower symbols are pairwise distinct. */
  lemma {:induction false} FlowersAreDistinct()
    ensures |FLOWERS| == FLOWER_COUNT && NoDup(FLOWERS)
  {
  }

  /** Two flowers show the same symbol exactly when they are the same
      flower, so comparing symbols and comparing positions agree. */
  lemma {:induction false} SameSymbolIffSameFlower(f: nat, g: nat)
    requires f < FLOWER_COUNT && g < FLOWER_COUNT
    ensures Symbol(f) == Symbol(g) <==> f == g
  {
    FlowersAreDistinct();
  }

  /** In a sequence without duplicates every element occurs once. */
  lemma {:induction false} NoDupCount<T>(s: seq<T>, x: T)
    requires NoDup(s)
    ensures multiset(s)[x] == if x in s then 1 else 0
  {
    if s != [] {
      assert s == [s[0]] + s[1..];
      assert NoDup(s[1..]) by {
        forall i, j | 0 <= i < j < |s[1..]| ensures s[1..][i] != s[1..][j] {
          assert s[1..][i] == s[i + 1] && s[1..][j] == s[j + 1];
        }
      }
      assert s[0] !in s[1..] by {
        forall k | 0 <= k < |s[1..]| ensures s[1..][k] != s[0] {
          assert s[1..][k] == s[k + 1];
        }
      }
      NoDupCount(s[1..], x);
    }
  }
}
