/** Bitwise AND and OR on unsigned words, as the C operators compute them, and the laws
    that let the fields of a word be read and written as quotients and remainders. */
module Bits {

  function And(a: nat, b: nat): nat {
    if a == 0 || b == 0 then 0
    else 2 * And(a / 2, b / 2) + (if a % 2 == 1 && b % 2 == 1 then 1 else 0)
  }

  function Or(a: nat, b: nat): nat {
    if a == 0 then b
    else if b == 0 then a
    else 2 * Or(a / 2, b / 2) + (if a % 2 == 1 || b % 2 == 1 then 1 else 0)
  }

  // a & ~b
  function AndNot(a: nat, b: nat): nat {
    if a == 0 then 0
    else 2 * AndNot(a / 2, b / 2) + (if a % 2 == 1 && b % 2 == 0 then 1 else 0)
  }

  // The word with `low` in its k lowest bits and `high` above them.
  function Join(k: nat, high: nat, low: nat): nat {
    if k == 0 then high else 2 * Join(k - 1, high, low / 2) + low % 2
  }

  // Does x fit in k bits?
  predicate Fits(k: nat, x: nat) {
    if k == 0 then x == 0 else Fits(k - 1, x / 2)
  }

  // The word of k ones
  function Ones(k: nat): nat {
    if k == 0 then 0 else 2 * Ones(k - 1) + 1
  }

  lemma AndStep(a: nat, b: nat, x: nat, y: nat)
    requires x < 2 && y < 2
    ensures And(2 * a + x, 2 * b + y) == 2 * And(a, b) + (if x == 1 && y == 1 then 1 else 0)
  {
  }

  lemma OrStep(a: nat, b: nat, x: nat, y: nat)
    requires x < 2 && y < 2
    ensures Or(2 * a + x, 2 * b + y) == 2 * Or(a, b) + (if x == 1 || y == 1 then 1 else 0)
  {
  }

  lemma JoinStep(k: nat, high: nat, low: nat, x: nat)
    requires k > 0 && x < 2
    ensures Join(k, high, 2 * low + x) == 2 * Join(k - 1, high, low) + x
    ensures Fits(k, 2 * low + x) == Fits(k - 1, low)
  {
  }

  // AND works on the upper and the lower part of a word separately.
  lemma {:induction false} AndSplit(k: nat, a: nat, r: nat, b: nat, s: nat)
    requires Fits(k, r) && Fits(k, s)
    ensures And(Join(k, a, r), Join(k, b, s)) == Join(k, And(a, b), And(r, s))
    decreases k, 1
  {
    if k > 0 {
      AndSplitStep(k, a, r / 2, r % 2, b, s / 2, s % 2);
    }
  }

  lemma AndSplitStep(k: nat, a: nat, r: nat, x: nat, b: nat, s: nat, y: nat)
    requires k > 0 && x < 2 && y < 2
    requires Fits(k, 2 * r + x) && Fits(k, 2 * s + y)
    ensures And(Join(k, a, 2 * r + x), Join(k, b, 2 * s + y)) == Join(k, And(a, b), And(2 * r + x, 2 * s + y))
    decreases k, 0
  {
    hide And, Join, Fits;
    var z := if x == 1 && y == 1 then 1 else 0;
    JoinStep(k, a, r, x);
    JoinStep(k, b, s, y);
    AndSplit(k - 1, a, r, b, s);
    AndStep(Join(k - 1, a, r), Join(k - 1, b, s), x, y);
    AndStep(r, s, x, y);
    JoinStep(k, And(a, b), And(r, s), z);
  }

  // OR works on the upper and the lower part of a word separately.
  lemma {:induction false} OrSplit(k: nat, a: nat, r: nat, b: nat, s: nat)
    requires Fits(k, r) && Fits(k, s)
    ensures Or(Join(k, a, r), Join(k, b, s)) == Join(k, Or(a, b), Or(r, s))
    decreases k, 1
  {
    if k > 0 {
      OrSplitStep(k, a, r / 2, r % 2, b, s / 2, s % 2);
    }
  }

  lemma OrSplitStep(k: nat, a: nat, r: nat, x: nat, b: nat, s: nat, y: nat)
    requires k > 0 && x < 2 && y < 2
    requires Fits(k, 2 * r + x) && Fits(k, 2 * s + y)
    ensures Or(Join(k, a, 2 * r + x), Join(k, b, 2 * s + y)) == Join(k, Or(a, b), Or(2 * r + x, 2 * s + y))
    decreases k, 0
  {
    hide Or, Join, Fits;
    var z := if x == 1 || y == 1 then 1 else 0;
    JoinStep(k, a, r, x);
    JoinStep(k, b, s, y);
    OrSplit(k - 1, a, r, b, s);
    OrStep(Join(k - 1, a, r), Join(k - 1, b, s), x, y);
    OrStep(r, s, x, y);
    JoinStep(k, Or(a, b), Or(r, s), z);
  }

  lemma {:induction false} AndOnes(k: nat, r: nat)
    requires Fits(k, r)
    ensures And(r, Ones(k)) == r
  {
    if k > 0 {
      AndOnes(k - 1, r / 2);
    }
  }

  lemma {:induction false} FitsZero(k: nat)
    ensures Fits(k, 0) && Fits(k, Ones(k))
  {
    if k > 0 {
      FitsZero(k - 1);
    }
  }

  lemma {:induction false} JoinZero(k: nat, low: nat)
    requires Fits(k, low)
    ensures Join(k, 0, low) == low
  {
    if k > 0 {
      JoinZero(k - 1, low / 2);
    }
  }

  // ORing a small field into a word whose k low bits are clear, in either order.
  lemma OrDisjoint(k: nat, a: nat, s: nat)
    requires Fits(k, s)
    ensures Or(Join(k, a, 0), s) == Or(s, Join(k, a, 0)) == Join(k, a, s)
  {
  }

  // Masking with `width` ones shifted up by k keeps the field at bits k .. k + width - 1.
  lemma AndField(k: nat, width: nat, above: nat, field: nat, below: nat)
    requires Fits(width, field) && Fits(k, below)
    ensures And(Join(k, Join(width, above, field), below), Join(k, Ones(width), 0)) == Join(k, field, 0)
  {
    FitsZero(k);
    FitsZero(width);
    AndSplit(k, Join(width, above, field), below, Ones(width), 0);
    JoinZero(width, Ones(width));
    JoinZero(width, field);
    AndSplit(width, above, field, 0, Ones(width));
    AndOnes(width, field);
  }

  // Clearing the k low bits
  lemma {:induction false} ClearLow(k: nat, a: nat, r: nat)
    requires Fits(k, r)
    ensures AndNot(Join(k, a, r), Ones(k)) == Join(k, a, 0)
  {
    if k > 0 {
      ClearLow(k - 1, a, r / 2);
      AndNotStep(Join(k - 1, a, r / 2), Ones(k - 1), r % 2);
    } else {
      ClearNone(a);
    }
  }

  lemma AndNotStep(a: nat, b: nat, x: nat)
    requires x < 2
    ensures AndNot(2 * a + x, 2 * b + 1) == 2 * AndNot(a, b)
  {
  }

  lemma {:induction false} ClearNone(a: nat)
    ensures AndNot(a, 0) == a
  {
    if a > 0 {
      ClearNone(a / 2);
    }
  }

  // Joining at j + k bits is joining at j bits and then at k bits.
  lemma {:induction false} JoinAdd(j: nat, k: nat, a: nat, b: nat, c: nat)
    requires Fits(k, c) && Fits(j, b)
    ensures Join(j + k, a, Join(k, b, c)) == Join(k, Join(j, a, b), c)
    ensures Fits(j + k, Join(k, b, c))
  {
    if k > 0 {
      JoinAdd(j, k - 1, a, b, c / 2);
      JoinStep(j + k, a, Join(k - 1, b, c / 2), c % 2);
    }
  }

  // Where the fields of the entry formats begin.

  lemma JoinAt1(a: nat, s: nat)
    requires s < 2
    ensures Fits(1, s) && Join(1, a, s) == a * 2 + s
  {
  }

  lemma JoinAt2(a: nat, s: nat)
    requires s < 4
    ensures Fits(2, s) && Join(2, a, s) == a * 4 + s
  {
    JoinAt1(a, s / 2);
  }

  lemma JoinAt4(a: nat, s: nat)
    requires s < 16
    ensures Fits(4, s) && Join(4, a, s) == a * 16 + s
  {
    JoinAt2(a, s / 4);
    JoinAt2(0, s % 4);
    JoinAt2(s / 4, s % 4);
    JoinAdd(2, 2, a, s / 4, s % 4);
    JoinAt2(a * 4 + s / 4, s % 4);
  }

  lemma JoinAt8(a: nat, s: nat)
    requires s < 0x100
    ensures Fits(8, s) && Join(8, a, s) == a * 0x100 + s
  {
    JoinAt4(a, s / 16);
    JoinAt4(s / 16, s % 16);
    JoinAdd(4, 4, a, s / 16, s % 16);
    JoinAt4(a * 16 + s / 16, s % 16);
  }

  lemma JoinAt10(a: nat, s: nat)
    requires s < 0x400
    ensures Fits(10, s) && Join(10, a, s) == a * 0x400 + s
  {
    JoinAt8(a, s / 4);
    JoinAt2(s / 4, s % 4);
    JoinAdd(8, 2, a, s / 4, s % 4);
    JoinAt2(a * 0x100 + s / 4, s % 4);
  }

  lemma JoinAt12(a: nat, s: nat)
    requires s < 0x1000
    ensures Fits(12, s) && Join(12, a, s) == a * 0x1000 + s
  {
    JoinAt8(a, s / 16);
    JoinAt4(s / 16, s % 16);
    JoinAdd(8, 4, a, s / 16, s % 16);
    JoinAt4(a * 0x100 + s / 16, s % 16);
  }

  lemma JoinAt16(a: nat, s: nat)
    requires s < 0x1_0000
    ensures Fits(16, s) && Join(16, a, s) == a * 0x1_0000 + s
  {
    JoinAt8(a, s / 0x100);
    JoinAt8(s / 0x100, s % 0x100);
    JoinAdd(8, 8, a, s / 0x100, s % 0x100);
    JoinAt8(a * 0x100 + s / 0x100, s % 0x100);
  }

  lemma JoinAt32(a: nat, s: nat)
    requires s < 0x1_0000_0000
    ensures Fits(32, s) && Join(32, a, s) == a * 0x1_0000_0000 + s
  {
    JoinAt16(a, s / 0x1_0000);
    JoinAt16(s / 0x1_0000, s % 0x1_0000);
    JoinAdd(16, 16, a, s / 0x1_0000, s % 0x1_0000);
    JoinAt16(a * 0x1_0000 + s / 0x1_0000, s % 0x1_0000);
  }
}
