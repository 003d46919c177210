/** Board construction: the image catalog, the difficulty table, the pool that
    cycles the catalog, the two shuffles and the dealt board.

    A card's identity is an index into `CAT_IMAGES`; two cards show the same
    picture exactly when their identities are equal (`SameImageIffSameIdentity`). */
module Board {

  /** The four cat pictures, in catalog order. */
  const CAT_IMAGES: seq<string> := [
    "https://tinyurl.com/2n4mjfwt",
    "https://tinyurl.com/28u3vtxm",
    "https://tinyurl.com/4zkhyn9c",
    "https://tinyurl.com/bdhcyvmf"
  ]

  const CATALOG_SIZE: nat := 4

  datatype Difficulty = Easy | Medium | Hard

  /** One row of the difficulty table: grid shape and the three budgets. */
  datatype Profile = Profile(rows: nat, cols: nat, moves: int, time: int, hints: int)

  /** The difficulty table: every grid has an even number of cells, so the
      board is a whole number of pairs, and every budget is positive. */
  function Settings(d: Difficulty): (p: Profile)
    ensures (p.rows * p.cols) % 2 == 0
    ensures p.moves > 0 && p.time > 0 && p.hints > 0
  {
    match d
    case Easy => Profile(2, 4, 12, 30, 1)
    case Medium => Profile(4, 4, 24, 40, 2)
    case Hard => Profile(4, 6, 40, 60, 3)
  }

  /** The markup of a card is the image source of its identity, so comparing
      markup compares identities. */
  lemma SameImageIffSameIdentity(a: nat, b: nat)
    requires a < CATALOG_SIZE && b < CATALOG_SIZE
    ensures CAT_IMAGES[a] == CAT_IMAGES[b] <==> a == b
  {
    if a != b {
      assert CAT_IMAGES[a][20] != CAT_IMAGES[b][20] || CAT_IMAGES[a][21] != CAT_IMAGES[b][21];
    }
  }

  /** The catalog as identities. */
  function Catalog(): (c: seq<nat>) {
    [0, 1, 2, 3]
  }

  lemma CatalogCounts()
    ensures forall x: nat :: multiset(Catalog())[x] == if x < CATALOG_SIZE then 1 else 0
  {
    var c := Catalog();
    assert multiset(c) == multiset{0} + multiset{1} + multiset{2} + multiset{3} by {
      assert c == [0] + [1] + [2] + [3];
    }
  }

  /** The catalog concatenated onto itself `k` times: every identity of the
      catalog occurs exactly `k` times and nothing else occurs. */
  function Cycle(k: nat): (r: seq<nat>)
    ensures |r| == CATALOG_SIZE * k
    ensures forall x: nat :: multiset(r)[x] == if x < CATALOG_SIZE then k else 0
  {
    if k == 0 then []
    else
      var r := Cycle(k - 1) + Catalog();
      assert forall x :: multiset(r)[x] == multiset(Cycle(k - 1))[x] + multiset(Catalog())[x];
      CatalogCounts();
      r
  }

  /** Number of catalog rounds the pool loop performs for `neededPairs`. */
  function Rounds(neededPairs: nat): (rounds: nat) {
    (neededPairs + CATALOG_SIZE - 1) / CATALOG_SIZE
  }

  /** The image pool once the growing loop stops: large enough for the
      selection, and short of it by less than one catalog. */
  function Pool(neededPairs: nat): (pool: seq<nat>)
    ensures neededPairs <= |pool| < neededPairs + CATALOG_SIZE
    ensures forall x :: x in pool ==> x < CATALOG_SIZE
  {
    var pool := Cycle(Rounds(neededPairs));
    assert forall x :: x in pool ==> multiset(pool)[x] > 0;
    pool
  }

  /** One run of the randomised shuffle. `rand` stands for the random choices:
      each step moves the element at position `rand[0] mod |s|` to the front
      of what is left. Every permutation of `s` is some run. */
  function Shuffle(s: seq<nat>, rand: seq<nat>): (r: seq<nat>)
    ensures |r| == |s|
    ensures multiset(r) == multiset(s)
    decreases |s|
  {
    if |s| == 0 then []
    else
      var k := (if |rand| > 0 then rand[0] else 0) % |s|;
      var rest := s[..k] + s[k + 1..];
      assert s == s[..k] + [s[k]] + s[k + 1..];
      [s[k]] + Shuffle(rest, if |rand| > 0 then rand[1..] else [])
  }

  /** Taking out the element at `k` takes one copy of it out of the multiset. */
  lemma RemoveAt(s: seq<nat>, k: nat)
    requires k < |s|
    ensures multiset(s[..k] + s[k + 1..]) == multiset(s) - multiset{s[k]}
  {
    assert s == s[..k] + [s[k]] + s[k + 1..];
  }

  /** Taking off the head takes one copy of it out of the multiset. */
  lemma RemoveHead(t: seq<nat>)
    requires |t| > 0
    ensures multiset(t[1..]) == multiset(t) - multiset{t[0]}
  {
    assert t == [t[0]] + t[1..];
  }

  lemma SmallMod(k: nat, n: nat)
    requires k < n
    ensures k % n == k
  {
  }

  /** A run whose first choice is `k` puts `s[k]` first, followed by the run
      of the remaining choices on what is left. */
  lemma ShuffleFirst(s: seq<nat>, k: nat, more: seq<nat>, t: seq<nat>)
    requires k < |s| && |t| > 0 && s[k] == t[0]
    requires Shuffle(s[..k] + s[k + 1..], more) == t[1..]
    ensures Shuffle(s, [k] + more) == t
  {
    SmallMod(k, |s|);
    assert ([k] + more)[1..] == more;
    assert t == [t[0]] + t[1..];
  }

  /** A position of an element of `s`. */
  lemma Position(s: seq<nat>, x: nat) returns (k: nat)
    requires x in multiset(s)
    ensures k < |s| && s[k] == x
  {
    k :| 0 <= k < |s| && s[k] == x;
  }

  /** Every permutation of `s` is the outcome of some run of the shuffle. */
  lemma {:induction false} ShuffleReaches(s: seq<nat>, t: seq<nat>) returns (rand: seq<nat>)
    requires multiset(t) == multiset(s)
    ensures Shuffle(s, rand) == t
    decreases |s|
  {
    assert |t| == |s| by {
      assert |t| == |multiset(t)|;
    }
    if |s| == 0 {
      rand := [];
    } else {
      var k := Position(s, t[0]);
      var rest := s[..k] + s[k + 1..];
      assert multiset(t[1..]) == multiset(rest) by {
        RemoveAt(s, k);
        RemoveHead(t);
      }
      var more := ShuffleReaches(rest, t[1..]);
      rand := [k] + more;
      ShuffleFirst(s, k, more, t);
    }
  }

  /** The first `neededPairs` entries of the shuffled pool. */
  function Selected(neededPairs: nat, rand: seq<nat>): (sel: seq<nat>)
    ensures |sel| == neededPairs
    ensures multiset(sel) <= multiset(Pool(neededPairs))
    ensures forall x :: x in sel ==> x < CATALOG_SIZE
  {
    var shuffled := Shuffle(Pool(neededPairs), rand);
    var sel := shuffled[..neededPairs];
    assert shuffled == sel + shuffled[neededPairs..];
    assert forall x :: x in sel ==> x in multiset(shuffled);
    sel
  }

  /** A permutation of `s + s` holds only what `s` holds, each an even number of times. */
  lemma DoubledIsEven(s: seq<nat>, cards: seq<nat>)
    requires multiset(cards) == multiset(s + s)
    ensures forall x :: x in cards ==> x in s
    ensures forall x :: multiset(cards)[x] % 2 == 0
  {
    forall x ensures multiset(cards)[x] == 2 * multiset(s)[x] {
      assert multiset(s + s) == multiset(s) + multiset(s);
    }
    forall x | x in cards ensures x in s {
      assert x in multiset(cards);
    }
  }

  /** The dealt board: the selection twice over, shuffled. Its length is twice
      the number of pairs, it holds catalog identities only, and every
      identity occurs an even number of times. */
  function Deal(neededPairs: nat, rand1: seq<nat>, rand2: seq<nat>): (cards: seq<nat>)
    ensures |cards| == 2 * neededPairs
    ensures multiset(cards) == multiset(Selected(neededPairs, rand1) + Selected(neededPairs, rand1))
    ensures forall x :: x in cards ==> x < CATALOG_SIZE
    ensures forall x :: multiset(cards)[x] % 2 == 0
  {
    var sel := Selected(neededPairs, rand1);
    var cards := Shuffle(sel + sel, rand2);
    DoubledIsEven(sel, cards);
    cards
  }

  /** The pool loop stops after exactly `Rounds` rounds. */
  lemma RoundsStop(neededPairs: nat, rounds: nat)
    requires CATALOG_SIZE * rounds >= neededPairs
    requires rounds == 0 || CATALOG_SIZE * (rounds - 1) < neededPairs
    ensures rounds == Rounds(neededPairs)
  {
  }

  lemma Halve(n: nat)
    requires n % 2 == 0
    ensures 2 * (n / 2) == n
  {
  }

  /** The pool loop: the catalog is appended until the pool holds at least
      `neededPairs` pictures. */
  method GrowPool(neededPairs: nat) returns (imagePool: seq<nat>)
    ensures imagePool == Pool(neededPairs)
  {
    imagePool := [];
    ghost var rounds: nat := 0;
    while |imagePool| < neededPairs
      invariant imagePool == Cycle(rounds)
      invariant rounds == 0 || CATALOG_SIZE * (rounds - 1) < neededPairs
    {
      imagePool := imagePool + Catalog();
      rounds := rounds + 1;
    }
    RoundsStop(neededPairs, rounds);
  }

  /** Builds the board for a `rows` by `cols` grid: grows the pool one catalog
      at a time, selects `rows * cols / 2` identities and deals each twice. */
  method CreateBoard(rows: nat, cols: nat, rand1: seq<nat>, rand2: seq<nat>) returns (cards: seq<nat>)
    requires (rows * cols) % 2 == 0
    ensures |cards| == rows * cols
    ensures cards == Deal(rows * cols / 2, rand1, rand2)
  {
    var neededPairs := rows * cols / 2;
    Halve(rows * cols);
    var imagePool := GrowPool(neededPairs);
    var selected := Shuffle(imagePool, rand1)[..neededPairs];
    assert selected == Selected(neededPairs, rand1);
    cards := Shuffle(selected + selected, rand2);
  }

  /** When the number of pairs is a whole number of catalogs (all three
      difficulty profiles), the pool is used up entirely, and every catalog
      identity lies on the board exactly `neededPairs / 2` times. */
  lemma FullCatalogDeal(neededPairs: nat, rand1: seq<nat>, rand2: seq<nat>)
    requires neededPairs % CATALOG_SIZE == 0
    ensures forall x: nat :: multiset(Deal(neededPairs, rand1, rand2))[x]
                             == if x < CATALOG_SIZE then neededPairs / 2 else 0
  {
    var pool := Pool(neededPairs);
    var rounds := neededPairs / CATALOG_SIZE;
    assert Rounds(neededPairs) == rounds;
    var shuffled := Shuffle(pool, rand1);
    assert shuffled[..neededPairs] == shuffled;
    var sel := Selected(neededPairs, rand1);
    assert multiset(sel) == multiset(pool);
    var onBoard: multiset<nat> := multiset(Deal(neededPairs, rand1, rand2));
    var chosen: multiset<nat> := multiset(sel);
    assert onBoard == chosen + chosen;
    forall x: nat ensures onBoard[x] == if x < CATALOG_SIZE then neededPairs / 2 else 0 {
      assert chosen[x] == if x < CATALOG_SIZE then rounds else 0;
    }
  }

  /** Up to one catalog's worth of pairs, the pool is at most one catalog. */
  lemma SmallPool(neededPairs: nat)
    requires neededPairs <= CATALOG_SIZE
    ensures forall x: nat :: multiset(Pool(neededPairs))[x] <= 1
  {
    assert Rounds(neededPairs) <= 1;
  }

  /** Up to one catalog's worth of pairs, the selection has no repeats, so each
      identity lies on the board exactly twice or not at all. */
  lemma SmallDealIsPairs(neededPairs: nat, rand1: seq<nat>, rand2: seq<nat>)
    requires neededPairs <= CATALOG_SIZE
    ensures forall x: nat :: multiset(Deal(neededPairs, rand1, rand2))[x] == 0
                          || multiset(Deal(neededPairs, rand1, rand2))[x] == 2
  {
    SmallPool(neededPairs);
    var chosen: multiset<nat> := multiset(Selected(neededPairs, rand1));
    var onBoard: multiset<nat> := multiset(Deal(neededPairs, rand1, rand2));
    assert onBoard == chosen + chosen;
    assert forall x: nat :: chosen[x] <= 1;
  }

  /** The three profiles deal 8, 16 and 24 cards; every catalog picture lies on
      the board 2, 4 and 6 times respectively. */
  lemma ProfileBoards(d: Difficulty, rand1: seq<nat>, rand2: seq<nat>)
    ensures var p := Settings(d);
      var cards := Deal(p.rows * p.cols / 2, rand1, rand2);
      && |cards| == p.rows * p.cols
      && |cards| == (match d case Easy => 8 case Medium => 16 case Hard => 24)
      && forall x: nat :: multiset(cards)[x] == if x < CATALOG_SIZE then |cards| / 4 else 0
  {
    var p := Settings(d);
    match d
    case Easy =>
      assert p.rows * p.cols / 2 == 4;
      FullCatalogDeal(4, rand1, rand2);
    case Medium =>
      assert p.rows * p.cols / 2 == 8;
      FullCatalogDeal(8, rand1, rand2);
    case Hard =>
      assert p.rows * p.cols / 2 == 12;
      FullCatalogDeal(12, rand1, rand2);
  }
}
