/** What rounding each slice of a lot to 1e-18 does to the basis of the whole lot. */
module Rounding {
  import opened Decimals
  import opened Sequences

  function Sum(xs: seq<int>): int {
    if xs == [] then 0 else xs[0] + Sum(xs[1..])
  }

  /** The basis booked when a lot of the given basis and quantity goes in the given slices. */
  function BookedBasis(basis: int, quantity: int, takes: seq<int>): int
    requires quantity > 0
  {
    if takes == [] then 0
    else HalfEven(basis * takes[0], quantity) + BookedBasis(basis, quantity, takes[1..])
  }

  /** A way of using up a lot: positive slices that add up to its quantity. */
  ghost predicate UsesUp(takes: seq<int>, quantity: int) {
    (forall i :: 0 <= i < |takes| ==> takes[i] > 0) && Sum(takes) == quantity
  }

  /** A lot that goes in one slice is booked at exactly its basis. */
  lemma WholeLotExact(basis: int, quantity: int)
    requires quantity > 0
    ensures BookedBasis(basis, quantity, [quantity]) == basis
  {
    HalfEvenExact(basis, quantity);
    assert BookedBasis(basis, quantity, [quantity][1..]) == 0;
  }

  /** Twice the error, in units of 1e-18 times the lot quantity, of booking `booked` for `taken`. */
  function Error2(basis: int, quantity: int, taken: int, booked: int): int {
    2 * (basis * taken - booked * quantity)
  }

  lemma ErrorAdds(basis: int, quantity: int, t: int, b: int, taken: int, booked: int)
    ensures Error2(basis, quantity, t + taken, b + booked)
            == Error2(basis, quantity, t, b) + Error2(basis, quantity, taken, booked)
  {
  }

  lemma SliceError(basis: int, quantity: int, t: int)
    requires quantity > 0
    ensures -quantity <= Error2(basis, quantity, t, HalfEven(basis * t, quantity)) <= quantity
  {
    HalfEvenNearest(basis * t, quantity);
  }

  lemma ErrorsWiden(n: nat, quantity: int, one: int, rest: int)
    requires -quantity <= one <= quantity && -(n * quantity) <= rest <= n * quantity
    ensures -((n + 1) * quantity) <= one + rest <= (n + 1) * quantity
  {
    assert (n + 1) * quantity == n * quantity + quantity;
  }

  /** After n slices the booked basis is within n half-units of the exact pro-rata basis. */
  lemma {:induction false} DriftBound(basis: int, quantity: int, takes: seq<int>)
    requires quantity > 0
    ensures -(|takes| * quantity) <= Error2(basis, quantity, Sum(takes), BookedBasis(basis, quantity, takes))
            <= |takes| * quantity
  {
    if takes != [] {
      var rest := takes[1..];
      var booked := HalfEven(basis * takes[0], quantity);
      var restBooked := BookedBasis(basis, quantity, rest);
      DriftBound(basis, quantity, rest);
      SliceError(basis, quantity, takes[0]);
      ErrorAdds(basis, quantity, takes[0], booked, Sum(rest), restBooked);
      ErrorsWiden(|rest|, quantity, Error2(basis, quantity, takes[0], booked),
        Error2(basis, quantity, Sum(rest), restBooked));
    }
  }

  lemma WholeUnitSlice(unit: int, quantity: int, take: int)
    requires quantity > 0
    ensures HalfEven(unit * quantity * take, quantity) == unit * take
  {
    assert unit * quantity * take == unit * take * quantity;
    HalfEvenExact(unit * take, quantity);
  }

  lemma UnitsAdd(unit: int, take: int, taken: int)
    ensures unit * (take + taken) == unit * take + unit * taken
  {
  }

  lemma {:induction false} WholeUnitsNeverDrift(unit: int, quantity: int, takes: seq<int>)
    requires quantity > 0
    ensures BookedBasis(unit * quantity, quantity, takes) == unit * Sum(takes)
  {
    if takes != [] {
      WholeUnitsNeverDrift(unit, quantity, takes[1..]);
      WholeUnitSlice(unit, quantity, takes[0]);
      UnitsAdd(unit, takes[0], Sum(takes[1..]));
    }
  }

  lemma {:induction false} OnesBooked(basis: int, quantity: int, n: nat)
    requires quantity > 0
    ensures Sum(Repeat(1, n)) == n
    ensures BookedBasis(basis, quantity, Repeat(1, n)) == HalfEven(basis, quantity) * n
  {
    if n > 0 {
      OnesBooked(basis, quantity, n - 1);
      assert Repeat(1, n)[1..] == Repeat(1, n - 1);
      assert HalfEven(basis, quantity) * n == HalfEven(basis, quantity) * (n - 1) + HalfEven(basis, quantity);
    }
  }

  /** Using up a lot always books exactly its basis if and only if the unit basis needs no rounding. */
  lemma UsingUpIsExactIff(basis: int, quantity: int)
    requires quantity > 0
    ensures (forall takes :: UsesUp(takes, quantity) ==> BookedBasis(basis, quantity, takes) == basis)
            <==> basis % quantity == 0
  {
    if basis % quantity == 0 {
      var unit := basis / quantity;
      assert basis == unit * quantity;
      forall takes | UsesUp(takes, quantity) ensures BookedBasis(basis, quantity, takes) == basis {
        WholeUnitsNeverDrift(unit, quantity, takes);
      }
    } else {
      OnesBooked(basis, quantity, quantity);
      assert UsesUp(Repeat(1, quantity), quantity);
      if BookedBasis(basis, quantity, Repeat(1, quantity)) == basis {
        MultipleLeavesNoRemainder(HalfEven(basis, quantity), quantity);
      }
    }
  }

  lemma MultipleLeavesNoRemainder(k: int, den: int)
    requires den > 0
    ensures (k * den) % den == 0
  {
    var q, r := (k * den) / den, (k * den) % den;
    assert k * den == q * den + r;
    assert (k - q) * den == r;
    if k - q >= 1 {
      ProductAtLeast(k - q, den, 1);
    } else if k - q <= -1 {
      ProductAtLeast(q - k, den, 1);
    }
  }

  /** Anchoring the exhausting slice does not stop the booked basis from passing the lot's: 4 units go in
      slices of 1, 2 and 1 and book 1 + 2 + 1 against a basis of 3. */
  lemma BookedBasisCanExceed()
    ensures UsesUp([1, 2, 1], 4) && BookedBasis(3, 4, [1, 2, 1]) > 3
  {
    assert [1, 2, 1][1..] == [2, 1] && [2, 1][1..] == [1] && [1][1..] == [];
    assert Sum([1]) == 1 && Sum([2, 1]) == 3;
    assert HalfEven(3, 4) == 1 && HalfEven(6, 4) == 2;
    assert BookedBasis(3, 4, [1]) == 1 && BookedBasis(3, 4, [2, 1]) == 3;
  }
}
