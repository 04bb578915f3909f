/** When rounding the slices of a lot can book more than the lot's basis. */
module Excess {
  import opened Decimals
  import opened Rounding
  import opened Sequences

  /** Booking this slice books more than its share. */
  predicate Over(basis: int, quantity: int, take: int)
    requires quantity > 0
  {
    HalfEven(basis * take, quantity) * quantity > basis * take
  }

  /** The least slice from `from` on that books more than its share, or 0 when none of the lot does. */
  function LeastOver(basis: int, quantity: int, from: nat): (t: nat)
    requires quantity > 0 && from >= 1
    ensures t > 0 ==> from <= t <= quantity && Over(basis, quantity, t)
    ensures t > 0 ==> forall s :: from <= s < t ==> !Over(basis, quantity, s)
    ensures t == 0 ==> forall s :: from <= s <= quantity ==> !Over(basis, quantity, s)
    decreases quantity - from
  {
    if from > quantity then 0
    else if Over(basis, quantity, from) then from
    else LeastOver(basis, quantity, from + 1)
  }

  /** What the repeated slices and the rest book. */
  function Repeated(m: int, slice: int, rest: int): int {
    m * slice + rest
  }

  /** Taking that slice as often as it goes, and then the rest, books more than the basis. */
  predicate RepeatExceeds(basis: int, quantity: int)
    requires quantity > 0
  {
    var t := LeastOver(basis, quantity, 1);
    t > 0 && Repeated(quantity / t, HalfEven(basis * t, quantity), HalfEven(basis * (quantity % t), quantity)) > basis
  }

  // ---- From the condition to a split ----

  lemma MultipleNext(n: nat, x: int)
    requires n > 0
    ensures n * x == (n - 1) * x + x
  {
  }

  lemma {:induction false} RepeatBooked(basis: int, quantity: int, take: int, n: nat, rest: seq<int>)
    requires quantity > 0
    ensures BookedBasis(basis, quantity, Repeat(take, n) + rest)
         == n * HalfEven(basis * take, quantity) + BookedBasis(basis, quantity, rest)
    ensures Sum(Repeat(take, n) + rest) == n * take + Sum(rest)
  {
    if n == 0 {
      assert Repeat(take, 0) + rest == rest;
    } else {
      RepeatBooked(basis, quantity, take, n - 1, rest);
      assert (Repeat(take, n) + rest)[1..] == Repeat(take, n - 1) + rest;
      MultipleNext(n, HalfEven(basis * take, quantity));
      MultipleNext(n, take);
    }
  }

  lemma NothingBooked(basis: int, quantity: int)
    requires quantity > 0
    ensures HalfEven(basis * 0, quantity) == 0
  {
  }

  lemma QuotientAndRest(quantity: int, t: int)
    requires quantity > 0 && t > 0
    ensures quantity / t >= 0 && 0 <= quantity % t < t && quantity / t * t + quantity % t == quantity
  {
  }

  lemma RestBooked(basis: int, quantity: int, r: nat) returns (rest: seq<int>)
    requires quantity > 0
    ensures BookedBasis(basis, quantity, rest) == HalfEven(basis * r, quantity) && Sum(rest) == r
    ensures forall i :: 0 <= i < |rest| ==> rest[i] > 0
  {
    if r == 0 {
      NothingBooked(basis, quantity);
      rest := [];
    } else {
      rest := [r];
      assert [r][1..] == [];
    }
  }

  lemma ExceedingSplit(basis: int, quantity: int) returns (takes: seq<int>)
    requires quantity > 0 && RepeatExceeds(basis, quantity)
    ensures UsesUp(takes, quantity) && BookedBasis(basis, quantity, takes) > basis
  {
    var t := LeastOver(basis, quantity, 1);
    QuotientAndRest(quantity, t);
    var rest := RestBooked(basis, quantity, quantity % t);
    RepeatBooked(basis, quantity, t, quantity / t, rest);
    takes := Repeat(t, quantity / t) + rest;
  }

  // ---- What a slice books beyond the whole units of the unit basis ----

  function Beyond(basis: int, quantity: int, take: int): int
    requires quantity > 0
  {
    HalfEven(basis * take, quantity) - basis / quantity * take
  }

  /** Beyond is the share of the remainder, rounded; and a slice is over its share when Beyond is. */
  lemma BeyondNearest(basis: int, quantity: int, take: int)
    requires quantity > 0
    ensures -quantity <= 2 * (basis % quantity * take - Beyond(basis, quantity, take) * quantity) <= quantity
    ensures Over(basis, quantity, take) <==> Beyond(basis, quantity, take) * quantity > basis % quantity * take
  {
    HalfEvenNearest(basis * take, quantity);
    SharesSplit(basis, quantity, basis / quantity, basis % quantity, take, HalfEven(basis * take, quantity));
  }

  lemma SharesSplit(basis: int, quantity: int, k: int, c: int, take: int, booked: int)
    requires basis == k * quantity + c
    ensures basis * take - booked * quantity == c * take - (booked - k * take) * quantity
  {
    assert basis * take == k * quantity * take + c * take;
    assert (booked - k * take) * quantity == booked * quantity - k * take * quantity;
    assert k * quantity * take == k * take * quantity;
  }

  // ---- No slice over its share ----

  lemma {:induction false} NoneOver(basis: int, quantity: int, takes: seq<int>)
    requires quantity > 0
    requires forall i :: 0 <= i < |takes| ==> !Over(basis, quantity, takes[i])
    ensures BookedBasis(basis, quantity, takes) * quantity <= basis * Sum(takes)
  {
    if takes != [] {
      NoneOver(basis, quantity, takes[1..]);
      var booked := HalfEven(basis * takes[0], quantity);
      assert booked * quantity <= basis * takes[0] by {
        assert !Over(basis, quantity, takes[0]);
      }
      AddUp(basis, quantity, takes[0], booked, Sum(takes[1..]), BookedBasis(basis, quantity, takes[1..]));
    }
  }

  lemma AddUp(basis: int, quantity: int, take: int, booked: int, taken: int, before: int)
    requires booked * quantity <= basis * take && before * quantity <= basis * taken
    ensures (booked + before) * quantity <= basis * (take + taken)
  {
    Distribute(booked, before, quantity);
    Distribute(take, taken, basis);
  }

  lemma Distribute(a: int, b: int, x: int)
    ensures (a + b) * x == a * x + b * x
  {
  }

  lemma {:induction false} TakesWithin(takes: seq<int>, i: nat)
    requires i < |takes| && forall j :: 0 <= j < |takes| ==> takes[j] > 0
    ensures takes[i] <= Sum(takes)
  {
    SumNonNegative(takes[1..]);
    if i > 0 {
      TakesWithin(takes[1..], i - 1);
    }
  }

  lemma {:induction false} SumNonNegative(takes: seq<int>)
    requires forall j :: 0 <= j < |takes| ==> takes[j] > 0
    ensures Sum(takes) >= 0
  {
    if takes != [] {
      SumNonNegative(takes[1..]);
    }
  }

  lemma NoneOverNoExcess(basis: int, quantity: int, takes: seq<int>)
    requires quantity > 0 && UsesUp(takes, quantity) && LeastOver(basis, quantity, 1) == 0
    ensures BookedBasis(basis, quantity, takes) <= basis
  {
    forall i | 0 <= i < |takes| ensures !Over(basis, quantity, takes[i]) {
      TakesWithin(takes, i);
    }
    NoneOver(basis, quantity, takes);
    Cancel(BookedBasis(basis, quantity, takes), basis, quantity);
  }

  lemma Cancel(a: int, b: int, x: int)
    requires x > 0 && a * x <= b * x
    ensures a <= b
  {
    Distribute(a - b, b, x);
    if a > b {
      ProductAtLeast(a - b, x, 1);
    }
  }

  // ---- A remainder of less than half ----

  /** Below the least slice over its share nothing is booked beyond whole units, and that slice books one. */
  lemma {:induction false} BeyondBelow(basis: int, quantity: int, t: nat, s: nat)
    requires quantity > 0 && 0 < 2 * (basis % quantity) < quantity
    requires t == LeastOver(basis, quantity, 1) && 0 <= s <= t && t > 0
    ensures Beyond(basis, quantity, s) == if s < t then 0 else 1
    decreases s
  {
    if s == 0 {
      NothingBooked(basis, quantity);
    } else {
      BeyondBelow(basis, quantity, t, s - 1);
      BeyondNearest(basis, quantity, s - 1);
      BeyondNearest(basis, quantity, s);
      OneStep(quantity, basis % quantity, s, Beyond(basis, quantity, s), Over(basis, quantity, s));
    }
  }

  lemma OneStep(quantity: int, c: int, s: nat, beyond: int, over: bool)
    requires s > 0 && 0 < 2 * c < quantity && 2 * (c * (s - 1)) <= quantity
    requires -quantity <= 2 * (c * s - beyond * quantity) <= quantity
    requires over <==> beyond * quantity > c * s
    ensures beyond == if over then 1 else 0
  {
    var x := c * s;
    assert x == c * (s - 1) + c;
    assert 0 < x < quantity by {
      ProductAtLeast(s, c, 1);
      assert s * c == x;
    }
    NegatedProduct(beyond, quantity);
    if beyond >= 2 {
      ProductAtLeast(beyond, quantity, 2);
    } else if beyond <= -1 {
      ProductAtLeast(-beyond, quantity, 1);
    }
  }

  /** Each unit beyond takes a whole least slice. */
  lemma BeyondCapped(basis: int, quantity: int, t: nat, take: nat)
    requires quantity > 0 && 0 < 2 * (basis % quantity) < quantity && t == LeastOver(basis, quantity, 1) && t > 0
    ensures Beyond(basis, quantity, take) <= take / t
  {
    var c, j := basis % quantity, Beyond(basis, quantity, take);
    if j == 1 && take < t {
      BeyondBelow(basis, quantity, t, take);
    } else if j >= 1 {
      BeyondBelow(basis, quantity, t, 1);
      BeyondNearest(basis, quantity, 1);
      BeyondBelow(basis, quantity, t, t - 1);
      BeyondNearest(basis, quantity, t - 1);
      BeyondNearest(basis, quantity, take);
      if j >= 2 {
        FarEnough(quantity, c, t, take, j);
      }
      AtLeastTimes(take, t, j);
    } else {
      AtLeastTimes(take, t, 0);
    }
  }

  /** Reaching j and a half units less one takes 2j - 1 times as much as reaching half a unit. */
  lemma FarEnough(quantity: int, c: int, t: nat, take: nat, j: int)
    requires 0 < 2 * c < quantity && t >= 2 && j >= 2
    requires 2 * (c * (t - 1)) <= quantity
    requires 2 * (c * take - j * quantity) >= -quantity
    ensures take >= j * t
  {
    var n := 2 * j - 1;
    assert n * quantity == 2 * (j * quantity) - quantity;
    if t == 2 {
      FarTwo(quantity, c, take, n);
    } else {
      FarMore(quantity, c, t - 1, take, n);
      Growth(j, t);
    }
  }

  lemma FarTwo(quantity: int, c: int, take: nat, n: nat)
    requires 0 < 2 * c < quantity && n > 0 && 2 * (c * take) >= n * quantity
    ensures take >= n + 1
  {
    assert 2 * c * n == 2 * (c * n);
    StrictScale(2 * c, quantity, n);
    if take <= n {
      ScaleUp(c, take, n);
    }
  }

  lemma FarMore(quantity: int, c: int, s: nat, take: nat, n: nat)
    requires c > 0 && 2 * (c * s) <= quantity && 2 * (c * take) >= n * quantity
    ensures take >= n * s
  {
    ScaleUp(n, 2 * (c * s), quantity);
    assert n * s * (2 * c) == n * (2 * (c * s));
    assert take * (2 * c) == 2 * (c * take);
    Cancel(n * s, take, 2 * c);
  }

  lemma ScaleUp(x: int, a: int, b: int)
    requires x >= 0 && a <= b
    ensures x * a <= x * b
  {
  }

  lemma StrictScale(a: int, b: int, n: int)
    requires a < b && n > 0
    ensures a * n < n * b
  {
  }

  lemma Growth(j: int, t: int)
    requires j >= 2 && t >= 3
    ensures (2 * j - 1) * (t - 1) >= j * t
  {
    assert (2 * j - 1) * (t - 1) - j * t == (j - 1) * (t - 3) + (j - 2) by {
      assert (2 * j - 1) * (t - 1) == 2 * (j * t) - 2 * j - t + 1;
      assert (j - 1) * (t - 3) == j * t - 3 * j - t + 3;
    }
    assert (j - 1) * (t - 3) >= 0;
  }

  lemma AtLeastTimes(take: nat, t: nat, j: int)
    requires t > 0 && take >= j * t
    ensures take / t >= j
  {
    QuotientBounds(take, t);
    Distribute(j - take / t, take / t, t);
    if take / t < j {
      ProductAtLeast(j - take / t, t, 1);
    }
  }

  lemma DivisionsAdd(x: nat, y: nat, t: nat)
    requires t > 0
    ensures x / t + y / t <= (x + y) / t
  {
    QuotientBounds(x, t);
    QuotientBounds(y, t);
    Distribute(x / t, y / t, t);
    AtLeastTimes(x + y, t, x / t + y / t);
  }

  lemma SliceCapped(basis: int, quantity: int, t: nat, take: nat)
    requires quantity > 0 && 0 < 2 * (basis % quantity) < quantity && t == LeastOver(basis, quantity, 1) && t > 0
    ensures HalfEven(basis * take, quantity) <= basis / quantity * take + take / t
  {
    BeyondCapped(basis, quantity, t, take);
  }

  lemma AddCapped(unit: int, take: int, booked: int, cap: int, taken: int, before: int, capBefore: int)
    requires booked <= unit * take + cap && before <= unit * taken + capBefore
    ensures booked + before <= unit * (take + taken) + (cap + capBefore)
  {
    Distribute(take, taken, unit);
  }

  lemma {:induction false} BookedCapped(basis: int, quantity: int, t: nat, takes: seq<int>)
    requires quantity > 0 && 0 < 2 * (basis % quantity) < quantity && t == LeastOver(basis, quantity, 1) && t > 0
    requires forall i :: 0 <= i < |takes| ==> takes[i] > 0
    ensures Sum(takes) >= 0 && BookedBasis(basis, quantity, takes) <= basis / quantity * Sum(takes) + Sum(takes) / t
  {
    SumNonNegative(takes);
    if takes != [] {
      var rest := takes[1..];
      SumNonNegative(rest);
      BookedCapped(basis, quantity, t, rest);
      SliceCapped(basis, quantity, t, takes[0]);
      DivisionsAdd(takes[0], Sum(rest), t);
      AddCapped(basis / quantity, takes[0], HalfEven(basis * takes[0], quantity), takes[0] / t,
                Sum(rest), BookedBasis(basis, quantity, rest), Sum(rest) / t);
    }
  }

  lemma Reassemble(k: int, quantity: int, t: int, m: int, r: int)
    requires quantity == m * t + r
    ensures m * (k * t + 1) + k * r == k * quantity + m
  {
    assert m * (k * t + 1) == k * (m * t) + m;
    assert k * quantity == k * (m * t) + k * r;
  }

  lemma SmallRemainder(basis: int, quantity: int, takes: seq<int>)
    requires quantity > 0 && UsesUp(takes, quantity) && 0 < 2 * (basis % quantity) < quantity
    requires BookedBasis(basis, quantity, takes) > basis
    ensures RepeatExceeds(basis, quantity)
  {
    var t := LeastOver(basis, quantity, 1);
    if t == 0 {
      NoneOverNoExcess(basis, quantity, takes);
    } else {
      BookedCapped(basis, quantity, t, takes);
      QuotientAndRest(quantity, t);
      BeyondBelow(basis, quantity, t, t);
      BeyondBelow(basis, quantity, t, quantity % t);
      Reassemble(basis / quantity, quantity, t, quantity / t, quantity % t);
    }
  }

  // ---- A remainder of exactly half ----

  /** Beyond for half a unit a piece, ties to even. */
  function Halves(take: nat): int {
    if take % 4 == 3 then take / 2 + 1 else take / 2
  }

  lemma HalfBeyond(basis: int, quantity: int, take: nat)
    requires quantity > 0 && 2 * (basis % quantity) == quantity && basis / quantity % 2 == 0
    ensures HalfEven(basis * take, quantity) == basis / quantity * take + Halves(take)
  {
    var k, c := basis / quantity, basis % quantity;
    var booked := k * take + Halves(take);
    SharesSplit(basis, quantity, k, c, take, booked);
    assert 2 * (c * take) == quantity * take;
    TieDistance(quantity, take);
    EvenTimes(k, take);
    HalfUnique(quantity, take, basis * take, k * take, booked);
  }

  lemma HalfUnique(quantity: int, take: nat, num: int, whole: int, booked: int)
    requires quantity > 0 && whole % 2 == 0 && booked == whole + Halves(take)
    requires 2 * (num - booked * quantity) == quantity * take - 2 * (Halves(take) * quantity)
    requires -quantity <= 2 * (num - booked * quantity) <= quantity
    requires take % 2 == 0 ==> num - booked * quantity == 0
    requires take % 2 == 1 ==> Halves(take) % 2 == 0
    ensures HalfEven(num, quantity) == booked
  {
    HalfEvenUnique(num, quantity, booked);
  }

  lemma EvenTimes(k: int, take: int)
    requires k % 2 == 0
    ensures k * take % 2 == 0
  {
    assert k * take == 2 * (k / 2 * take);
  }

  /** An even take has no tie; an odd one is half a unit off, and what is booked beyond is even. */
  lemma TieDistance(quantity: int, take: nat)
    requires quantity > 0
    ensures -quantity <= quantity * take - 2 * (Halves(take) * quantity) <= quantity
    ensures take % 2 == 0 ==> quantity * take - 2 * (Halves(take) * quantity) == 0
    ensures take % 2 == 1 ==> Halves(take) % 2 == 0
  {
    var d := take - 2 * Halves(take);
    assert quantity * take - 2 * (Halves(take) * quantity) == d * quantity;
    assert d == 0 || d == 1 || d == -1;
  }

  /** The most that slices of a lot can book beyond whole units: two for every three pieces. */
  function TwoOfThree(total: nat): nat {
    2 * (total / 3) + (if total % 3 == 2 then 1 else 0)
  }

  lemma HalvesCapped(take: nat)
    ensures Halves(take) <= TwoOfThree(take)
  {
  }

  lemma CapsAdd(x: nat, y: nat)
    ensures TwoOfThree(x) + TwoOfThree(y) <= TwoOfThree(x + y)
  {
  }

  lemma {:induction false} HalvesBooked(basis: int, quantity: int, takes: seq<int>)
    requires quantity > 0 && 2 * (basis % quantity) == quantity && basis / quantity % 2 == 0
    requires forall i :: 0 <= i < |takes| ==> takes[i] > 0
    ensures Sum(takes) >= 0
            && BookedBasis(basis, quantity, takes) <= basis / quantity * Sum(takes) + TwoOfThree(Sum(takes))
  {
    SumNonNegative(takes);
    if takes != [] {
      var rest := takes[1..];
      SumNonNegative(rest);
      HalvesBooked(basis, quantity, rest);
      HalfBeyond(basis, quantity, takes[0]);
      HalvesCapped(takes[0]);
      CapsAdd(takes[0], Sum(rest));
      AddCapped(basis / quantity, takes[0], HalfEven(basis * takes[0], quantity), Halves(takes[0]),
                Sum(rest), BookedBasis(basis, quantity, rest), TwoOfThree(Sum(rest)));
    }
  }

  lemma HalfOver(basis: int, quantity: int, take: nat)
    requires quantity > 0 && 2 * (basis % quantity) == quantity && basis / quantity % 2 == 0
    ensures Over(basis, quantity, take) <==> take % 4 == 3
  {
    HalfBeyond(basis, quantity, take);
    BeyondNearest(basis, quantity, take);
    assert 2 * (basis % quantity * take) == quantity * take;
    Compare(quantity, take, Halves(take));
  }

  lemma Compare(quantity: int, take: nat, halves: int)
    requires quantity > 0
    ensures halves * quantity * 2 > quantity * take <==> 2 * halves > take
  {
    assert halves * quantity * 2 - quantity * take == (2 * halves - take) * quantity;
    if 2 * halves > take {
      ProductAtLeast(2 * halves - take, quantity, 1);
    } else {
      ProductAtLeast(take - 2 * halves, quantity, 0);
      NegatedProduct(take - 2 * halves, quantity);
    }
  }

  lemma HalfRemainder(basis: int, quantity: int, takes: seq<int>)
    requires quantity > 0 && UsesUp(takes, quantity) && 2 * (basis % quantity) == quantity && basis / quantity % 2 == 0
    requires BookedBasis(basis, quantity, takes) > basis
    ensures RepeatExceeds(basis, quantity)
  {
    var t := LeastOver(basis, quantity, 1);
    if t == 0 {
      NoneOverNoExcess(basis, quantity, takes);
    } else {
      HalfOver(basis, quantity, 1);
      HalfOver(basis, quantity, 2);
      HalfOver(basis, quantity, 3);
      HalfOver(basis, quantity, t);
      assert t == 3;
      HalvesBooked(basis, quantity, takes);
      HalfBeyond(basis, quantity, 3);
      HalfBeyond(basis, quantity, quantity % 3);
      ReassembleThirds(basis / quantity, quantity, quantity / 3, quantity % 3);
    }
  }

  lemma ReassembleThirds(k: int, quantity: int, m: int, r: int)
    requires quantity == 3 * m + r
    ensures m * (k * 3 + 2) + k * r == k * quantity + 2 * m
  {
    assert m * (k * 3 + 2) == k * (3 * m) + 2 * m;
    assert k * quantity == k * (3 * m) + k * r;
  }

  // ---- The theorem ----

  lemma NoRemainder(basis: int, quantity: int, takes: seq<int>)
    requires quantity > 0 && UsesUp(takes, quantity) && basis % quantity == 0
    ensures BookedBasis(basis, quantity, takes) == basis
  {
    var unit := basis / quantity;
    assert basis == unit * quantity;
    WholeUnitsNeverDrift(unit, quantity, takes);
  }

  /** A unit basis that rounds up is booked too high piece by piece. */
  lemma LargeRemainder(basis: int, quantity: int)
    requires quantity > 0
    requires 2 * (basis % quantity) > quantity || (2 * (basis % quantity) == quantity && basis / quantity % 2 == 1)
    ensures RepeatExceeds(basis, quantity)
  {
    UnitRoundsUp(basis, quantity);
    assert LeastOver(basis, quantity, 1) == 1;
    NothingBooked(basis, quantity);
    assert quantity / 1 == quantity && quantity % 1 == 0;
  }

  lemma UnitRoundsUp(basis: int, quantity: int)
    requires quantity > 0
    requires 2 * (basis % quantity) > quantity || (2 * (basis % quantity) == quantity && basis / quantity % 2 == 1)
    ensures Over(basis, quantity, 1) && HalfEven(basis * 1, quantity) * quantity > basis
  {
    var k, c := basis / quantity, basis % quantity;
    assert basis * 1 == basis && HalfEven(basis, quantity) == k + 1;
    Distribute(k, 1, quantity);
    assert basis == k * quantity + c;
  }

  /** Some way of using the lot up books more than its basis exactly when repeating the least slice that is booked
      above its share, and then taking the rest, does. */
  lemma RepeatingIsWorst(basis: int, quantity: int)
    requires quantity > 0
    ensures (exists takes :: UsesUp(takes, quantity) && BookedBasis(basis, quantity, takes) > basis)
            <==> RepeatExceeds(basis, quantity)
  {
    if takes :| UsesUp(takes, quantity) && BookedBasis(basis, quantity, takes) > basis {
      if 0 < 2 * (basis % quantity) < quantity {
        SmallRemainder(basis, quantity, takes);
      } else if 2 * (basis % quantity) == quantity && basis / quantity % 2 == 0 {
        HalfRemainder(basis, quantity, takes);
      } else if basis % quantity == 0 {
        NoRemainder(basis, quantity, takes);
      } else {
        LargeRemainder(basis, quantity);
      }
    }
    if RepeatExceeds(basis, quantity) {
      var takes := ExceedingSplit(basis, quantity);
    }
  }

  // ---- In closed form ----

  /** The least slice whose share of a remainder of less than half reaches half a unit and is rounded up: on a
      tie the whole units booked for it must be odd. */
  function FirstUp(basis: int, quantity: int): nat
    requires quantity > 0 && 0 < 2 * (basis % quantity) < quantity
  {
    var c := basis % quantity;
    var t := (quantity + 2 * c - 1) / (2 * c);
    if 2 * c * t == quantity && basis / quantity * t % 2 == 0 then t + 1 else t
  }

  /** Whether rounding can book more than the basis, from the unit basis alone: one that rounds up always can; a
      half unit can from six pieces on; less than half can when more first slices fit than the remainder. */
  predicate Exceeds(basis: int, quantity: int)
    requires quantity > 0
  {
    var k, c := basis / quantity, basis % quantity;
    if 2 * c > quantity then true
    else if 2 * c == quantity then k % 2 == 1 || quantity >= 6
    else c > 0 && quantity / FirstUp(basis, quantity) > c
  }

  lemma CeilingBounds(q: int, d: int)
    requires q > 0 && d > 0
    ensures var t := (q + d - 1) / d; t >= 1 && d * (t - 1) < q <= d * t
  {
    var t := (q + d - 1) / d;
    QuotientBounds(q + d - 1, d);
    AtLeastTimes(q + d - 1, d, 1);
    assert d * t == t * d && d * (t - 1) == t * d - d;
  }

  lemma ZeroOrOne(quantity: int, x: int, j: int)
    requires 0 < x < quantity && -quantity <= 2 * (x - j * quantity) <= quantity
    ensures j == 0 || j == 1
  {
    if j >= 2 {
      ProductAtLeast(j, quantity, 2);
    } else if j <= -1 {
      ProductAtLeast(-j, quantity, 1);
      NegatedProduct(j, quantity);
    }
  }

  /** What an amount short of a piece rounds to, and when that is too much; `j` is its rounding. */
  lemma HalfDecides(quantity: int, x: int, j: int)
    requires 0 < x < quantity && -quantity <= 2 * (x - j * quantity) <= quantity
    ensures 2 * x < quantity ==> !(j * quantity > x)
    ensures 2 * x > quantity ==> j * quantity > x
    ensures j == 0 || j == 1
    ensures j * quantity > x <==> j == 1
  {
    ZeroOrOne(quantity, x, j);
  }

  /** On a tie what is booked is even. */
  lemma TieIsEven(basis: int, quantity: int, s: nat)
    requires quantity > 0 && 2 * (basis % quantity * s) == quantity
    ensures HalfEven(basis * s, quantity) % 2 == 0
  {
    var j := Beyond(basis, quantity, s);
    BeyondNearest(basis, quantity, s);
    ZeroOrOne(quantity, basis % quantity * s, j);
    HalfEvenNearest(basis * s, quantity);
    SharesSplit(basis, quantity, basis / quantity, basis % quantity, s, HalfEven(basis * s, quantity));
  }

  /** Below half a unit a slice is not over its share; above half, and on a tie with odd whole units, it is. */
  lemma OverByHalf(basis: int, quantity: int, s: nat)
    requires quantity > 0 && 0 < 2 * (basis % quantity) < quantity && s > 0
    ensures 2 * (basis % quantity * s) < quantity ==> !Over(basis, quantity, s)
    ensures quantity < 2 * (basis % quantity * s) < 2 * quantity ==> Over(basis, quantity, s)
    ensures 2 * (basis % quantity * s) == quantity ==> (Over(basis, quantity, s) <==> basis / quantity * s % 2 == 1)
  {
    var x, j := basis % quantity * s, Beyond(basis, quantity, s);
    BeyondNearest(basis, quantity, s);
    ProductAtLeast(basis % quantity, s, 1);
    if x < quantity {
      HalfDecides(quantity, x, j);
      if 2 * x == quantity {
        TieIsEven(basis, quantity, s);
      }
    }
  }

  lemma SharesGrow(c: int, s: nat, t: nat)
    requires c >= 0 && s <= t
    ensures c * s <= c * t
  {
  }

  /** The first slice to reach half a unit, and the one after it. */
  lemma FirstToReach(quantity: int, c: int) returns (t: nat)
    requires 0 < 2 * c < quantity
    ensures t == (quantity + 2 * c - 1) / (2 * c) && 1 <= t < quantity
    ensures 2 * (c * (t - 1)) < quantity <= 2 * (c * t) < 2 * quantity && 2 * (c * (t + 1)) == 2 * (c * t) + 2 * c
    ensures 2 * c * t == 2 * (c * t)
  {
    t := (quantity + 2 * c - 1) / (2 * c);
    CeilingBounds(quantity, 2 * c);
    assert 2 * c * t == 2 * (c * t) && 2 * c * (t - 1) == 2 * (c * (t - 1)) && c * (t - 1) == c * t - c;
    assert c * (t + 1) == c * t + c;
    ScaleUp(t - 1, 1, c);
    assert (t - 1) * c == c * (t - 1);
  }

  lemma NoneBefore(basis: int, quantity: int, t: nat)
    requires quantity > 0 && 0 < 2 * (basis % quantity) < quantity && t >= 1
    requires 2 * (basis % quantity * (t - 1)) < quantity
    ensures forall s :: 1 <= s < t ==> !Over(basis, quantity, s)
  {
    forall s | 1 <= s < t ensures !Over(basis, quantity, s) {
      SharesGrow(basis % quantity, s, t - 1);
      OverByHalf(basis, quantity, s);
    }
  }

  /** The search ends where the closed form says. */
  lemma FirstUpIsLeast(basis: int, quantity: int)
    requires quantity > 0 && 0 < 2 * (basis % quantity) < quantity
    ensures LeastOver(basis, quantity, 1) == FirstUp(basis, quantity) > 0
  {
    var up := FirstUp(basis, quantity);
    var t := FirstToReach(quantity, basis % quantity);
    NoneBefore(basis, quantity, t);
    OverByHalf(basis, quantity, t);
    OverByHalf(basis, quantity, t + 1);
    assert up == t || (up == t + 1 && !Over(basis, quantity, t));
    assert Over(basis, quantity, up);
    assert forall s :: 1 <= s < up ==> !Over(basis, quantity, s);
  }

  lemma RepeatExceedsIff(basis: int, quantity: int)
    requires quantity > 0
    ensures RepeatExceeds(basis, quantity) <==> Exceeds(basis, quantity)
  {
    var k, c := basis / quantity, basis % quantity;
    if 2 * c > quantity || (2 * c == quantity && k % 2 == 1) {
      LargeRemainder(basis, quantity);
    } else if 2 * c == quantity {
      HalfExceedsIff(basis, quantity);
    } else if c > 0 {
      SmallExceedsIff(basis, quantity);
    } else {
      if RepeatExceeds(basis, quantity) {
        var takes := ExceedingSplit(basis, quantity);
        NoRemainder(basis, quantity, takes);
      }
    }
  }

  /** What repeating a slice books, when it books `extra` beyond whole units and the rest `more`, against a basis
      of whole units and a remainder. */
  lemma RepeatedSum(basis: int, k: int, quantity: int, t: int, m: int, r: int, extra: int, more: int, c: int)
    requires quantity == m * t + r && basis == k * quantity + c
    ensures m * (k * t + extra) + (k * r + more) - basis == m * extra + more - c
  {
    assert m * (k * t + extra) == k * (m * t) + m * extra;
    assert k * quantity == k * (m * t) + k * r;
  }

  lemma WholeAndRemainder(basis: int, quantity: int)
    requires quantity > 0
    ensures basis == basis / quantity * quantity + basis % quantity
  {
  }

  lemma RepeatedBeyond(basis: int, quantity: int, t: nat, extra: int, more: int)
    requires quantity > 0 && t > 0
    ensures var k := basis / quantity;
            && (Repeated(quantity / t, k * t + extra, k * (quantity % t) + more) > basis
                <==> quantity / t * extra + more > basis % quantity)
  {
    QuotientAndRest(quantity, t);
    WholeAndRemainder(basis, quantity);
    RepeatedSum(basis, basis / quantity, quantity, t, quantity / t, quantity % t, extra, more, basis % quantity);
  }

  lemma SmallExceedsIff(basis: int, quantity: int)
    requires quantity > 0 && 0 < 2 * (basis % quantity) < quantity
    ensures RepeatExceeds(basis, quantity) <==> quantity / FirstUp(basis, quantity) > basis % quantity
  {
    var t := FirstUp(basis, quantity);
    FirstUpIsLeast(basis, quantity);
    QuotientAndRest(quantity, t);
    BeyondBelow(basis, quantity, t, t);
    BeyondBelow(basis, quantity, t, quantity % t);
    RepeatedBeyond(basis, quantity, t, 1, 0);
  }

  lemma HalfExceedsIff(basis: int, quantity: int)
    requires quantity > 0 && 2 * (basis % quantity) == quantity && basis / quantity % 2 == 0
    ensures RepeatExceeds(basis, quantity) <==> quantity >= 6
  {
    var t := LeastOver(basis, quantity, 1);
    HalfOver(basis, quantity, 1);
    HalfOver(basis, quantity, 2);
    if quantity >= 3 {
      HalfOver(basis, quantity, 3);
      assert t == 3;
      HalfBeyond(basis, quantity, 3);
      HalfBeyond(basis, quantity, quantity % 3);
      RepeatedBeyond(basis, quantity, t, 2, Halves(quantity % 3));
    } else if t > 0 {
      HalfOver(basis, quantity, t);
    }
  }

  /** Rounding the slices can book more than the lot's basis, for some way of using the lot up, exactly when the
      closed form says so. */
  lemma SomeSplitExceedsIff(basis: int, quantity: int)
    requires quantity > 0
    ensures (exists takes :: UsesUp(takes, quantity) && BookedBasis(basis, quantity, takes) > basis)
            <==> Exceeds(basis, quantity)
  {
    RepeatingIsWorst(basis, quantity);
    RepeatExceedsIff(basis, quantity);
  }
}
