/**
 * A worked case of computeBalances, stated on the reference definition:
 * A pays 10.00 for A, B and C.  The share 3.3333333333 leaves A at +6.67
 * and B and C at -3.33 each after rounding; the one cent of drift comes off
 * the largest creditor, A.  Amounts are in working units of 10^-10, results
 * in cents.
 */
module Scenarios {
  import opened Options
  import opened Decimal
  import opened LinkedMaps
  import opened BalanceSpec

  /** 10.00 in working units. */
  const TenUnits: int := 100_000_000_000

  const TenForThree: Expense := Expense(Some(TenUnits), Some("A"), Some(["A", "B", "C"]))

  const Trio: seq<string> := ["A", "B", "C"]

  lemma TenSplitThreeWays()
    ensures Balances(Some([TenForThree]))
         == Ok(OrderedMap(Trio, map["A" := 666, "B" := -333, "C" := -333]))
  {
    var xs := [TenForThree];
    TrioKeys();
    TrioNets();
    TrioRounded();
    var m := RoundedNets(xs, Trio);
    assert m == map["A" := 667, "B" := -333, "C" := -333];
    TrioSettle();
  }

  /** A registers first (as payer), then B and C; the second A is dropped. */
  lemma TrioKeys()
    ensures Dedup(Names([TenForThree])) == Trio
  {
    assert [TenForThree][..0] == [];
    assert Names([TenForThree]) == ["A", "A", "B", "C"];
    assert ["A", "A", "B", "C"][..3] == ["A", "A", "B"];
    assert ["A", "A", "B"][..2] == ["A", "A"];
    assert ["A", "A"][..1] == ["A"];
    assert ["A"][..0] == [];
  }

  /** The exact nets: A paid 10 and owes one share, B and C owe one share each. */
  lemma TrioNets()
    ensures NetOf([TenForThree], "A") == 66_666_666_667
    ensures NetOf([TenForThree], "B") == -33_333_333_333
    ensures NetOf([TenForThree], "C") == -33_333_333_333
  {
    assert Share(TenUnits, 3) == 33_333_333_333 by {
      assert IsHalfEvenQuotient(TenUnits, 3, 33_333_333_333);
      HalfEvenQuotientUnique(TenUnits, 3, 33_333_333_333);
    }
    assert [TenForThree][..0] == [];
    assert Trio[..2] == ["A", "B"];
    assert Trio[..2][..1] == ["A"];
    assert ["A"][..0] == [];
    var share := 33_333_333_333;
    assert Debits(Trio, "A", share) == share;
    assert Debits(Trio, "B", share) == share;
    assert Debits(Trio, "C", share) == share;
    forall k | k in Trio
      ensures NetOf([TenForThree], k) == Contribution(TenForThree, k)
    {
    }
  }

  lemma TrioRounded()
    ensures ToCents(66_666_666_667) == 667
    ensures ToCents(-33_333_333_333) == -333
  {
    assert IsHalfEvenQuotient(66_666_666_667, UnitsPerCent, 667);
    HalfEvenQuotientUnique(66_666_666_667, UnitsPerCent, 667);
    assert IsHalfEvenQuotient(-33_333_333_333, UnitsPerCent, -333);
    HalfEvenQuotientUnique(-33_333_333_333, UnitsPerCent, -333);
  }

  /** The rounded values sum to one cent, which the largest creditor A gives up. */
  lemma TrioSettle()
    ensures Settle(Trio, map["A" := 667, "B" := -333, "C" := -333])
         == OrderedMap(Trio, map["A" := 666, "B" := -333, "C" := -333])
  {
    var m := map["A" := 667, "B" := -333, "C" := -333];
    assert Trio[..2] == ["A", "B"];
    assert Trio[..2][..1] == ["A"];
    assert ["A"][..0] == [];
    assert SumOver(Trio, m) == 1;
    assert MaxCreditor(Trio, m) == Some("A");
    assert m["A" := 666] == map["A" := 666, "B" := -333, "C" := -333];
  }
}
