/** The identifier counter each user record keeps: an `unsigned int` that skips zero when it wraps. */
module MessageIds {

  const WORD: int := 0x1_0000_0000

  /** How many different identifiers there are. */
  const MAX_IDS: int := WORD - 1

  /** The counter after one more message: 32-bit increment, with 0 replaced by 1. */
  function NextId(last: nat): nat {
    var bumped := (last + 1) % WORD;
    if bumped == 0 then 1 else bumped
  }

  /** The counter after `n` messages since registration, which starts it at 0. */
  function IdAfter(n: nat): nat {
    if n == 0 then 0 else NextId(IdAfter(n - 1))
  }

  /** The n-th identifier since registration, in closed form. */
  lemma {:induction false} NthId(n: nat)
    requires n > 0
    ensures IdAfter(n) == (n - 1) % MAX_IDS + 1
  {
    if n == 1 {
      ModUnique(0, 0, 0);
    } else {
      NthId(n - 1);
      var q, r := (n - 2) / MAX_IDS, (n - 2) % MAX_IDS;
      NextIdStep(r + 1);
      if r + 1 == MAX_IDS {
        ModUnique(n - 1, q + 1, 0);
      } else {
        ModUnique(n - 1, q, r + 1);
      }
    }
  }

  lemma NextIdStep(last: nat)
    requires last <= MAX_IDS
    ensures NextId(last) == if last == MAX_IDS then 1 else last + 1
  {
  }

  lemma ModUnique(k: nat, q: nat, r: nat)
    requires k == q * MAX_IDS + r && r < MAX_IDS
    ensures k % MAX_IDS == r
  {
  }

  /** Every identifier handed out is a non-zero 32-bit number. */
  lemma IdInRange(n: nat)
    requires n > 0
    ensures 1 <= IdAfter(n) < WORD
  {
    NthId(n);
  }

  /** Two assignments share an identifier exactly when their positions differ by a multiple of 2^32 - 1. */
  lemma SameIdIff(m: nat, n: nat)
    requires 0 < m && 0 < n
    ensures IdAfter(m) == IdAfter(n) <==> (m - n) % MAX_IDS == 0
  {
    NthId(m);
    NthId(n);
    SameRemainder(m - 1, n - 1);
  }

  lemma SameRemainder(a: nat, b: nat)
    ensures a % MAX_IDS == b % MAX_IDS <==> (a - b) % MAX_IDS == 0
  {
    var qa, ra := a / MAX_IDS, a % MAX_IDS;
    var qb, rb := b / MAX_IDS, b % MAX_IDS;
    assert a - b == (qa - qb) * MAX_IDS + (ra - rb);
    if ra == rb {
      MultipleOf(a - b, qa - qb);
    } else {
      var q := (a - b) / MAX_IDS;
      assert ra - rb == a - b - (qa - qb) * MAX_IDS;
      NotMultiple(ra - rb, q - (qa - qb));
    }
  }

  lemma MultipleOf(x: int, q: int)
    requires x == q * MAX_IDS
    ensures x % MAX_IDS == 0
  {
  }

  /** No non-zero number smaller than MAX_IDS is a multiple of it. */
  lemma NotMultiple(x: int, q: int)
    requires -MAX_IDS < x < MAX_IDS && x != 0
    ensures x != q * MAX_IDS
  {
  }

  /** Below the wrap, the n-th identifier is n itself. */
  lemma IdIsPosition(n: nat)
    requires n <= MAX_IDS
    ensures IdAfter(n) == n
  {
    if n > 0 {
      NthId(n);
      ModUnique(n - 1, 0, n - 1);
    }
  }
}
