/**
 * Properties of the reference definition in BalanceSpec: key order, skipped
 * expenses, the sum-to-zero invariant and the choice of the drift target.
 */
module BalanceProperties {
  import opened Options
  import opened Decimal
  import opened LinkedMaps
  import opened BalanceSpec

  // ---------------------------------------------------------------------------
  // First-occurrence order of names
  // ---------------------------------------------------------------------------

  /** Dedup keeps exactly the elements of its input. */
  lemma {:induction false} DedupMembers<T>(s: seq<T>)
    ensures forall x :: x in Dedup(s) ==> x in s
    ensures forall x :: x in s ==> x in Dedup(s)
  {
    if |s| > 0 {
      var init := s[..|s| - 1];
      DedupMembers(init);
      assert s == init + [s[|s| - 1]];
    }
  }

  /** A name that no expense registers has a running net of zero. */
  lemma {:induction false} UnregisteredNetIsZero(xs: seq<Expense>, k: string)
    requires k !in Names(xs)
    ensures NetOf(xs, k) == 0
  {
    if |xs| > 0 {
      var e := xs[|xs| - 1];
      UnregisteredNetIsZero(xs[..|xs| - 1], k);
      if !Skipped(e) {
        assert k !in e.participants.value;
        DebitsAbsent(e.participants.value, k, Share(e.amount.value, |e.participants.value|));
      }
    }
  }

  lemma {:induction false} DebitsAbsent(s: seq<string>, k: string, share: int)
    requires k !in s
    ensures Debits(s, k, share) == 0
  {
    if |s| > 0 {
      DebitsAbsent(s[..|s| - 1], k, share);
    }
  }

  /** The names of one more expense come after the names of the earlier ones. */
  lemma NamesStep(xs: seq<Expense>, e: Expense)
    ensures Names(xs + [e]) == Names(xs) + Registered(e)
  {
    assert (xs + [e])[..|xs|] == xs;
  }

  lemma ConcatAssoc<X>(a: seq<X>, b: seq<X>, c: seq<X>)
    ensures a + (b + c) == a + b + c
  {
  }

  /** Every name of a suffix of the stream is registered. */
  lemma SuffixInDedup(pre: seq<string>, reg: seq<string>)
    ensures forall q :: q in reg ==> q in Dedup(pre + reg)
  {
    DedupMembers(pre + reg);
    forall q | q in reg
      ensures q in Dedup(pre + reg)
    {
      assert q in pre + reg;
    }
  }

  /** The stream of names grows by the payer and then the participants. */
  lemma RegisteredStep(prior: seq<Expense>, e: Expense)
    requires !Skipped(e)
    ensures Names(prior + [e]) == Names(prior) + PayerNames(e.payer) + e.participants.value
    ensures forall q :: q in Registered(e) ==> q in Dedup(Names(prior + [e]))
  {
    var pre, pay, ps := Names(prior), PayerNames(e.payer), e.participants.value;
    calc {
      Names(prior + [e]);
    == { NamesStep(prior, e); }
      pre + Registered(e);
    ==
      pre + (pay + ps);
    == { ConcatAssoc(pre, pay, ps); }
      pre + pay + ps;
    }
    NamesStep(prior, e);
    SuffixInDedup(pre, Registered(e));
  }

  /** A failing expense among the expenses, looked at one more expense at a time. */
  lemma NullPayerStep(es: seq<Expense>, i: nat)
    requires i < |es|
    ensures NullPayerIn(es[..i + 1]) <==> NullPayerIn(es[..i]) || FailsOnPayer(es[i])
    ensures FailsOnPayer(es[i]) ==> NullPayerIn(es)
  {
    assert es[..i + 1][i] == es[i];
    if NullPayerIn(es[..i + 1]) && !FailsOnPayer(es[i]) {
      var j :| 0 <= j < i + 1 && FailsOnPayer(es[..i + 1][j]);
      assert es[..i][j] == es[j];
    }
    if NullPayerIn(es[..i]) {
      var j :| 0 <= j < i && FailsOnPayer(es[..i][j]);
      assert es[..i + 1][j] == es[j];
    }
  }

  /** The expense loop adds one expense's contribution to every running net. */
  lemma NetOfStep(xs: seq<Expense>, e: Expense, k: string)
    ensures NetOf(xs + [e], k) == NetOf(xs, k) + Contribution(e, k)
  {
    assert (xs + [e])[..|xs|] == xs;
  }

  // ---------------------------------------------------------------------------
  // One more key in a left-to-right scan
  // ---------------------------------------------------------------------------

  lemma ScanStep(keys: seq<string>, m: map<string, int>, i: nat)
    requires i < |keys| && forall k :: k in keys ==> k in m
    ensures SumOver(keys[..i + 1], m) == SumOver(keys[..i], m) + m[keys[i]]
    ensures MaxCreditor(keys[..i + 1], m) ==
      var best := MaxCreditor(keys[..i], m);
      if m[keys[i]] > 0 && (best.None? || m[keys[i]] > m[best.value]) then Some(keys[i]) else best
    ensures MaxDebtor(keys[..i + 1], m) ==
      var best := MaxDebtor(keys[..i], m);
      if m[keys[i]] < 0 && (best.None? || m[keys[i]] < m[best.value]) then Some(keys[i]) else best
  {
    assert keys[..i + 1][..i] == keys[..i];
  }

  // ---------------------------------------------------------------------------
  // Keys: each name once, in the order of its first registration
  // ---------------------------------------------------------------------------

  /** The position of the first occurrence of x in s. */
  function IndexOf<T(==)>(s: seq<T>, x: T): (r: nat)
    requires x in s
    ensures r < |s| && s[r] == x && x !in s[..r]
  {
    var init := s[..|s| - 1];
    assert s == init + [s[|s| - 1]];
    if x in init then
      var r := IndexOf(init, x);
      assert s[..r] == init[..r];
      r
    else
      |s| - 1
  }

  /** No name is registered twice. */
  lemma {:induction false} DedupDistinct<T>(s: seq<T>)
    ensures Distinct(Dedup(s))
  {
    if |s| > 0 {
      DedupDistinct(s[..|s| - 1]);
    }
  }

  /** The kept elements appear in the order of their first occurrences. */
  lemma {:induction false} DedupFirstOccurrence<T>(s: seq<T>)
    ensures forall i, j :: 0 <= i < j < |Dedup(s)| ==>
      Dedup(s)[i] in s && Dedup(s)[j] in s && IndexOf(s, Dedup(s)[i]) < IndexOf(s, Dedup(s)[j])
  {
    if |s| > 0 {
      var init, x := s[..|s| - 1], s[|s| - 1];
      var d := Dedup(init);
      DedupFirstOccurrence<T>(init);
      DedupMembers<T>(init);
      forall i | 0 <= i < |d|
        ensures d[i] in init && d[i] in s && IndexOf(s, d[i]) == IndexOf(init, d[i]) < |init|
      {
        assert d[i] in d;
        IndexOfExtend(init, x, d[i]);
        assert s == init + [x];
      }
      if x !in d {
        assert x !in init && IndexOf(s, x) == |s| - 1;
      }
      assert Dedup(s) == if x in d then d else d + [x];
      forall i, j | 0 <= i < j < |Dedup(s)|
        ensures Dedup(s)[i] in s && Dedup(s)[j] in s && IndexOf(s, Dedup(s)[i]) < IndexOf(s, Dedup(s)[j])
      {
        assert Dedup(s)[i] == d[i];
        if j < |d| {
          assert Dedup(s)[j] == d[j];
        }
      }
    } else {
      assert Dedup(s) == [];
    }
  }

  /** Appending an element does not move an earlier first occurrence. */
  lemma IndexOfExtend<T>(s: seq<T>, x: T, y: T)
    requires y in s
    ensures y in s + [x] && IndexOf(s + [x], y) == IndexOf(s, y)
  {
    assert (s + [x])[..|s|] == s;
  }

  /** The payer of a lone processed expense comes first, then its participants. */
  lemma LoneExpenseKeys(e: Expense)
    requires !Skipped(e) && e.payer.Some?
    ensures Dedup(Names([e])) == Dedup([e.payer.value] + e.participants.value)
    ensures Dedup(Names([e]))[0] == e.payer.value
  {
    assert [e][..0] == [];
    assert Names([e]) == [] + ([e.payer.value] + e.participants.value);
    assert [] + ([e.payer.value] + e.participants.value) == [e.payer.value] + e.participants.value;
    DedupPrefix([e.payer.value], e.participants.value);
  }

  /** Dedup of s + t starts with Dedup of s. */
  lemma {:induction false} DedupPrefix<T>(s: seq<T>, t: seq<T>)
    ensures |Dedup(s)| <= |Dedup(s + t)| && Dedup(s + t)[..|Dedup(s)|] == Dedup(s)
  {
    if |t| == 0 {
      assert s + t == s;
    } else {
      var init := t[..|t| - 1];
      DedupPrefix(s, init);
      assert (s + t)[..|s + t| - 1] == s + init;
    }
  }

  // ---------------------------------------------------------------------------
  // Expenses that are skipped, and the share owed per listing
  // ---------------------------------------------------------------------------

  /** The names of two lists of expenses, one after the other. */
  lemma {:induction false} NamesAppend(a: seq<Expense>, b: seq<Expense>)
    ensures Names(a + b) == Names(a) + Names(b)
    decreases |b|
  {
    if |b| == 0 {
      assert a + b == a;
    } else {
      var init, e := b[..|b| - 1], b[|b| - 1];
      assert b == init + [e];
      assert a + b == (a + init) + [e];
      calc {
        Names(a + b);
      == { NamesStep(a + init, e); }
        Names(a + init) + Registered(e);
      == { NamesAppend(a, init); }
        Names(a) + Names(init) + Registered(e);
      == { ConcatAssoc(Names(a), Names(init), Registered(e)); }
        Names(a) + (Names(init) + Registered(e));
      == { NamesStep(init, e); }
        Names(a) + Names(b);
      }
    }
  }

  /** The running net of two lists of expenses, one after the other. */
  lemma {:induction false} NetOfAppend(a: seq<Expense>, b: seq<Expense>, k: string)
    ensures NetOf(a + b, k) == NetOf(a, k) + NetOf(b, k)
    decreases |b|
  {
    if |b| == 0 {
      assert a + b == a;
    } else {
      var init, e := b[..|b| - 1], b[|b| - 1];
      assert b == init + [e];
      assert a + b == (a + init) + [e];
      NetOfAppend(a, init, k);
      NetOfStep(a + init, e, k);
      NetOfStep(init, e, k);
    }
  }

  /** Removing a skipped expense does not change whether a null payer is met. */
  lemma NullPayerWithout(a: seq<Expense>, e: Expense, b: seq<Expense>)
    requires Skipped(e)
    ensures NullPayerIn(a + [e] + b) == NullPayerIn(a + b)
  {
    var ys, xs := a + [e] + b, a + b;
    if NullPayerIn(ys) {
      var i :| 0 <= i < |ys| && FailsOnPayer(ys[i]);
      if i < |a| {
        assert xs[i] == ys[i];
      } else {
        assert i != |a|;
        assert xs[i - 1] == ys[i];
      }
    }
    if NullPayerIn(xs) {
      var i :| 0 <= i < |xs| && FailsOnPayer(xs[i]);
      if i < |a| {
        assert ys[i] == xs[i];
      } else {
        assert ys[i + 1] == xs[i];
      }
    }
  }

  /** A skipped expense registers no names, wherever it stands. */
  lemma NamesWithout(a: seq<Expense>, e: Expense, b: seq<Expense>)
    requires Skipped(e)
    ensures Names(a + [e] + b) == Names(a + b)
  {
    assert a + [e] + b == (a + [e]) + b;
    assert [e] == [] + [e];
    NamesAppend(a + [e], b);
    NamesAppend(a, [e]);
    NamesStep([], e);
    NamesAppend(a, b);
  }

  /** A skipped expense moves no running net, wherever it stands. */
  lemma NetOfWithout(a: seq<Expense>, e: Expense, b: seq<Expense>, k: string)
    requires Skipped(e)
    ensures NetOf(a + [e] + b, k) == NetOf(a + b, k)
  {
    assert a + [e] + b == (a + [e]) + b;
    assert [e] == [] + [e];
    NetOfAppend(a + [e], b, k);
    NetOfAppend(a, [e], k);
    NetOfStep([], e, k);
    NetOfAppend(a, b, k);
  }

  /** A skipped expense, wherever it stands in the list, changes nothing. */
  lemma SkippedExpenseIgnored(a: seq<Expense>, e: Expense, b: seq<Expense>)
    requires Skipped(e)
    ensures Balances(Some(a + [e] + b)) == Balances(Some(a + b))
  {
    var ys, xs := a + [e] + b, a + b;
    NamesWithout(a, e, b);
    NullPayerWithout(a, e, b);
    var keys := Dedup(Names(xs));
    forall k | k in keys
      ensures NetOf(ys, k) == NetOf(xs, k)
    {
      NetOfWithout(a, e, b, k);
    }
    assert RoundedNets(ys, keys) == RoundedNets(xs, keys);
    if |xs| == 0 {
      assert keys == [];
      assert RoundedNets(ys, keys) == map[];
    }
  }

  /** A list in which every expense is skipped produces the empty balance. */
  lemma {:induction false} AllSkippedIsEmpty(xs: seq<Expense>)
    requires forall i :: 0 <= i < |xs| ==> Skipped(xs[i])
    ensures Balances(Some(xs)) == Ok(Empty)
  {
    NoNamesWhenAllSkipped(xs);
    assert !NullPayerIn(xs);
    assert RoundedNets(xs, []) == map[];
  }

  lemma {:induction false} NoNamesWhenAllSkipped(xs: seq<Expense>)
    requires forall i :: 0 <= i < |xs| ==> Skipped(xs[i])
    ensures Names(xs) == []
  {
    if |xs| > 0 {
      var init := xs[..|xs| - 1];
      assert forall i :: 0 <= i < |init| ==> init[i] == xs[i];
      NoNamesWhenAllSkipped(init);
    }
  }

  /** A participant listed c times owes c shares (n counts duplicates). */
  lemma {:induction false} DebitsCount(ps: seq<string>, k: string, share: int)
    ensures Debits(ps, k, share) == Count(ps, k) * share
  {
    if |ps| > 0 {
      DebitsCount(ps[..|ps| - 1], k, share);
    }
  }

  /** The payer is credited the full amount, and every listing of k costs k one share. */
  lemma ContributionOf(e: Expense, k: string)
    requires !Skipped(e)
    ensures Contribution(e, k) ==
      (if e.payer == Some(k) then e.amount.value else 0)
      - Count(e.participants.value, k) * Share(e.amount.value, |e.participants.value|)
  {
    DebitsCount(e.participants.value, k, Share(e.amount.value, |e.participants.value|));
  }

  // ---------------------------------------------------------------------------
  // The scan for the largest creditor and the largest debtor
  // ---------------------------------------------------------------------------

  /** keys[i] holds the largest positive value, and no earlier key holds as much. */
  ghost predicate IsFirstMaxCreditor(keys: seq<string>, m: map<string, int>, i: int)
    requires forall k :: k in keys ==> k in m
  {
    && 0 <= i < |keys| && m[keys[i]] > 0
    && (forall j :: 0 <= j < |keys| ==> m[keys[j]] <= m[keys[i]])
    && (forall j :: 0 <= j < i ==> m[keys[j]] < m[keys[i]])
  }

  /** keys[i] holds the most negative value, and no earlier key holds as little. */
  ghost predicate IsFirstMaxDebtor(keys: seq<string>, m: map<string, int>, i: int)
    requires forall k :: k in keys ==> k in m
  {
    && 0 <= i < |keys| && m[keys[i]] < 0
    && (forall j :: 0 <= j < |keys| ==> m[keys[j]] >= m[keys[i]])
    && (forall j :: 0 <= j < i ==> m[keys[j]] > m[keys[i]])
  }

  /** The scan finds no creditor exactly when no value is positive, and otherwise the first largest one. */
  lemma {:induction false} MaxCreditorFound(keys: seq<string>, m: map<string, int>)
    requires forall k :: k in keys ==> k in m
    ensures MaxCreditor(keys, m).None? <==> forall j :: 0 <= j < |keys| ==> m[keys[j]] <= 0
    ensures MaxCreditor(keys, m).Some? ==>
      exists i :: IsFirstMaxCreditor(keys, m, i) && keys[i] == MaxCreditor(keys, m).value
  {
    if |keys| > 0 {
      var n := |keys| - 1;
      var init, k := keys[..n], keys[n];
      assert forall j :: 0 <= j < n ==> init[j] == keys[j];
      MaxCreditorFound(init, m);
      var best := MaxCreditor(init, m);
      if m[k] > 0 && (best.None? || m[k] > m[best.value]) {
        if best.Some? {
          var i :| IsFirstMaxCreditor(init, m, i) && init[i] == best.value;
        }
        assert IsFirstMaxCreditor(keys, m, n);
      } else if best.Some? {
        var i :| IsFirstMaxCreditor(init, m, i) && init[i] == best.value;
        assert IsFirstMaxCreditor(keys, m, i);
      }
    }
  }

  /** Over distinct keys, MaxCreditor picks exactly the first entry with the largest positive value. */
  lemma MaxCreditorIsFirstMax(keys: seq<string>, m: map<string, int>, i: int)
    requires Distinct(keys) && forall k :: k in keys ==> k in m
    ensures IsFirstMaxCreditor(keys, m, i) <==> 0 <= i < |keys| && MaxCreditor(keys, m) == Some(keys[i])
  {
    MaxCreditorFound(keys, m);
    if IsFirstMaxCreditor(keys, m, i) || (0 <= i < |keys| && MaxCreditor(keys, m) == Some(keys[i])) {
      var i' :| IsFirstMaxCreditor(keys, m, i') && keys[i'] == MaxCreditor(keys, m).value;
      if IsFirstMaxCreditor(keys, m, i) {
        assert i == i';
      }
    }
  }

  /** The debtor scan: none exactly when no value is negative, and otherwise the first most negative. */
  lemma {:induction false} MaxDebtorFound(keys: seq<string>, m: map<string, int>)
    requires forall k :: k in keys ==> k in m
    ensures MaxDebtor(keys, m).None? <==> forall j :: 0 <= j < |keys| ==> m[keys[j]] >= 0
    ensures MaxDebtor(keys, m).Some? ==>
      exists i :: IsFirstMaxDebtor(keys, m, i) && keys[i] == MaxDebtor(keys, m).value
  {
    if |keys| > 0 {
      var n := |keys| - 1;
      var init, k := keys[..n], keys[n];
      assert forall j :: 0 <= j < n ==> init[j] == keys[j];
      MaxDebtorFound(init, m);
      var best := MaxDebtor(init, m);
      if m[k] < 0 && (best.None? || m[k] < m[best.value]) {
        if best.Some? {
          var i :| IsFirstMaxDebtor(init, m, i) && init[i] == best.value;
        }
        assert IsFirstMaxDebtor(keys, m, n);
      } else if best.Some? {
        var i :| IsFirstMaxDebtor(init, m, i) && init[i] == best.value;
        assert IsFirstMaxDebtor(keys, m, i);
      }
    }
  }

  /** Over distinct keys, MaxDebtor picks exactly the first entry with the most negative value. */
  lemma MaxDebtorIsFirstMax(keys: seq<string>, m: map<string, int>, i: int)
    requires Distinct(keys) && forall k :: k in keys ==> k in m
    ensures IsFirstMaxDebtor(keys, m, i) <==> 0 <= i < |keys| && MaxDebtor(keys, m) == Some(keys[i])
  {
    MaxDebtorFound(keys, m);
    if IsFirstMaxDebtor(keys, m, i) || (0 <= i < |keys| && MaxDebtor(keys, m) == Some(keys[i])) {
      var i' :| IsFirstMaxDebtor(keys, m, i') && keys[i'] == MaxDebtor(keys, m).value;
      if IsFirstMaxDebtor(keys, m, i) {
        assert i == i';
      }
    }
  }

  // ---------------------------------------------------------------------------
  // The drift correction
  // ---------------------------------------------------------------------------

  /** A positive sum has a positive term, and a negative sum a negative one. */
  lemma {:induction false} SignedSumHasSignedTerm(keys: seq<string>, m: map<string, int>)
    requires forall k :: k in keys ==> k in m
    ensures SumOver(keys, m) > 0 ==> exists j :: 0 <= j < |keys| && m[keys[j]] > 0
    ensures SumOver(keys, m) < 0 ==> exists j :: 0 <= j < |keys| && m[keys[j]] < 0
  {
    if |keys| > 0 {
      var n := |keys| - 1;
      var init := keys[..n];
      SignedSumHasSignedTerm(init, m);
      if SumOver(init, m) > 0 {
        var j :| 0 <= j < n && m[init[j]] > 0;
        assert keys[j] == init[j];
      }
      if SumOver(init, m) < 0 {
        var j :| 0 <= j < n && m[init[j]] < 0;
        assert keys[j] == init[j];
      }
    }
  }

  /**
   * The anyKey fallback is never used: a positive drift always has a
   * creditor to absorb it, and a negative drift a debtor.
   */
  lemma DriftTargetIsScanResult(keys: seq<string>, m: map<string, int>)
    requires forall k :: k in keys ==> k in m
    ensures SumOver(keys, m) > 0 ==> MaxCreditor(keys, m).Some? && DriftTarget(keys, m, SumOver(keys, m)) == MaxCreditor(keys, m)
    ensures SumOver(keys, m) < 0 ==> MaxDebtor(keys, m).Some? && DriftTarget(keys, m, SumOver(keys, m)) == MaxDebtor(keys, m)
  {
    SignedSumHasSignedTerm(keys, m);
    MaxCreditorFound(keys, m);
    MaxDebtorFound(keys, m);
  }

  /** Changing the value of one key among distinct keys changes the sum by the difference. */
  lemma {:induction false} SumOverUpdate(keys: seq<string>, m: map<string, int>, t: string, v: int)
    requires Distinct(keys) && t in keys && forall k :: k in keys ==> k in m
    ensures SumOver(keys, m[t := v]) == SumOver(keys, m) - m[t] + v
  {
    var n := |keys| - 1;
    var init := keys[..n];
    assert Distinct(init);
    if keys[n] == t {
      assert t !in init;
      SumOverFrame(init, m, t, v);
    } else {
      assert t in init;
      SumOverUpdate(init, m, t, v);
    }
  }

  /** The sum over keys that do not include t does not see t's value. */
  lemma {:induction false} SumOverFrame(keys: seq<string>, m: map<string, int>, t: string, v: int)
    requires t !in keys && forall k :: k in keys ==> k in m
    ensures SumOver(keys, m[t := v]) == SumOver(keys, m)
  {
    if |keys| > 0 {
      SumOverFrame(keys[..|keys| - 1], m, t, v);
    }
  }

  /**
   * After the correction the values sum to zero; the keys are untouched; a
   * zero sum leaves every value alone; otherwise only the drift target
   * changes, and it changes by minus the sum.
   */
  lemma SettleBalances(keys: seq<string>, m: map<string, int>)
    requires Distinct(keys) && forall k :: k in m <==> k in keys
    ensures Settle(keys, m).Valid() && Settle(keys, m).keys == keys
    ensures SumOver(keys, Settle(keys, m).vals) == 0
    ensures SumOver(keys, m) == 0 ==> Settle(keys, m).vals == m
    ensures SumOver(keys, m) != 0 ==>
      var t := DriftTarget(keys, m, SumOver(keys, m)).value;
      && Settle(keys, m).vals[t] == m[t] - SumOver(keys, m)
      && forall k :: k in keys && k != t ==> Settle(keys, m).vals[k] == m[k]
  {
    var total := SumOver(keys, m);
    if total != 0 {
      DriftTargetIsScanResult(keys, m);
      var t := DriftTarget(keys, m, total).value;
      SumOverUpdate(keys, m, t, m[t] - total);
    }
  }

  // ---------------------------------------------------------------------------
  // The balance as a whole
  // ---------------------------------------------------------------------------

  /**
   * A computed balance has every registered name once, in first-registration
   * order, and sums to exactly zero; of any two entries at least one holds
   * its rounded net, so at most one entry absorbs the drift.
   */
  lemma BalanceSumsToZero(xs: seq<Expense>)
    requires Balances(Some(xs)).Ok?
    ensures var b := Balances(Some(xs)).balance;
      && b.Valid() && SumOver(b.keys, b.vals) == 0
      && (forall x :: x in b.keys <==> x in Names(xs))
      && (|xs| > 0 ==> b.keys == Dedup(Names(xs)))
      && (forall k, k' :: k in b.keys && k' in b.keys && k != k' ==>
            b.vals[k] == ToCents(NetOf(xs, k)) || b.vals[k'] == ToCents(NetOf(xs, k')))
  {
    if |xs| > 0 {
      var keys := Dedup(Names(xs));
      DedupDistinct(Names(xs));
      DedupMembers(Names(xs));
      SettleBalances(keys, RoundedNets(xs, keys));
    }
  }
}
