/**
 * Splitter.computeBalances and its helpers ensureKey and anyKey, as methods
 * over the insertion-ordered map LinkedMap, proved equal to the reference
 * definition BalanceSpec.Balances.  Line numbers in the comments refer to
 * src/main/java/itm/oss/splitter/Splitter.java.
 *
 * The source's single method is split into one method per phase (the
 * expense loop, the rounding loop, the drift correction) and one per loop
 * body, so that each proof stays small; the statements and their order are
 * those of the source.
 */
module Splitter {
  import opened Options
  import opened Decimal
  import opened LinkedMaps
  import opened BalanceSpec
  import opened BalanceProperties

  /** ensureKey: register key with value zero unless it is null or present. */
  method EnsureKey(m: LinkedMap, key: Option<string>)
    requires m.Valid()
    modifies m
    ensures m.Valid()
    ensures key.None? || key.value in old(m.keys) ==> m.keys == old(m.keys) && m.vals == old(m.vals)
    ensures key.Some? && key.value !in old(m.keys) ==>
      m.keys == old(m.keys) + [key.value] && m.vals == old(m.vals)[key.value := 0]
  {
    if key.None? {
      return;
    }
    if !m.ContainsKey(key.value) {
      m.Put(key.value, 0);
    }
  }

  /** anyKey: the first key in iteration order, or null for an empty map. */
  method AnyKey(m: LinkedMap) returns (k: Option<string>)
    ensures k.None? <==> |m.keys| == 0
    ensures k.Some? ==> k.value == m.keys[0]
  {
    for i := 0 to |m.keys|
      invariant i == 0
    {
      return Some(m.keys[i]);
    }
    return None;
  }

  /** Every entry of m holds the running net after the expenses prior. */
  ghost predicate Tracks(m: OrderedMap, prior: seq<Expense>) {
    forall q :: q in m.vals ==> m.vals[q] == NetOf(prior, q)
  }

  /**
   * One ensureKey call on a map holding the names of the stream s: the map
   * then holds the names of s followed by the key, and a new entry's zero is
   * the running net of a name no earlier expense registered.
   */
  lemma EnsureKeyStep(before: OrderedMap, after: OrderedMap, s: seq<string>, key: Option<string>, prior: seq<Expense>)
    requires before.keys == Dedup(s) && Tracks(before, prior)
    requires forall q :: q in Names(prior) ==> q in s
    requires key.None? || key.value in before.keys ==> after == before
    requires key.Some? && key.value !in before.keys ==>
      after.keys == before.keys + [key.value] && after.vals == before.vals[key.value := 0]
    ensures after.keys == Dedup(s + PayerNames(key)) && Tracks(after, prior)
  {
    if key.None? {
      assert s + PayerNames(key) == s;
    } else {
      var x := key.value;
      assert (s + [x])[..|s|] == s;
      if x !in before.keys {
        DedupMembers(s);
        UnregisteredNetIsZero(prior, x);
      }
    }
  }

  /** ensureKey on a map that holds the names of the stream s and the nets after prior. */
  method TrackedEnsureKey(net: LinkedMap, key: Option<string>, ghost s: seq<string>, ghost prior: seq<Expense>)
    requires net.Valid() && net.keys == Dedup(s) && Tracks(net.Value(), prior)
    requires forall q :: q in Names(prior) ==> q in s
    modifies net
    ensures net.Valid() && net.keys == Dedup(s + PayerNames(key)) && Tracks(net.Value(), prior)
  {
    ghost var before := net.Value();
    EnsureKey(net, key);
    EnsureKeyStep(before, net.Value(), s, key, prior);
  }

  /**
   * One iteration of the expense loop (lines 42-68): skip an invalid expense,
   * register the payer and the participants, debit every participant entry
   * one share and credit the payer the amount.  Returns false where the
   * source throws because the payer is null.
   */
  method ApplyExpense(net: LinkedMap, es: seq<Expense>, i: nat) returns (ok: bool)
    requires i < |es| && net.Valid()
    requires net.keys == Dedup(Names(es[..i])) && Tracks(net.Value(), es[..i])
    modifies net
    ensures net.Valid() && ok == !FailsOnPayer(es[i])
    ensures ok ==> net.keys == Dedup(Names(es[..i + 1])) && Tracks(net.Value(), es[..i + 1])
  {
    var e := es[i];
    ghost var prior := es[..i];
    assert es[..i + 1] == prior + [e];
    // ExpenseValidator.validate(e) is a no-op.
    if e.amount.None? || e.participants.None? || |e.participants.value| == 0 {
      SkippedStep(prior, e);
      return true;
    }
    var amount, ps := e.amount.value, e.participants.value;
    var n := |ps|;
    Register(net, e, prior);
    var share := Share(amount, n);
    Debit(net, ps, share);
    ok := Credit(net, e, share, prior);
  }

  /** A skipped expense registers no name and adds nothing to any net. */
  lemma SkippedStep(prior: seq<Expense>, e: Expense)
    requires Skipped(e)
    ensures Names(prior + [e]) == Names(prior)
    ensures forall q :: NetOf(prior + [e], q) == NetOf(prior, q)
  {
    assert (prior + [e])[..|prior|] == prior;
    assert Names(prior) + [] == Names(prior);
  }

  /** Lines 55-56: register the payer, then every participant, left to right. */
  method Register(net: LinkedMap, e: Expense, ghost prior: seq<Expense>)
    requires !Skipped(e) && net.Valid()
    requires net.keys == Dedup(Names(prior)) && Tracks(net.Value(), prior)
    modifies net
    ensures net.Valid() && net.keys == Dedup(Names(prior + [e])) && Tracks(net.Value(), prior)
    ensures forall q :: q in Registered(e) ==> q in net.keys
  {
    ghost var registered := Names(prior) + PayerNames(e.payer);
    TrackedEnsureKey(net, e.payer, Names(prior), prior);
    EnsureKeys(net, e.participants.value, registered, prior);
    RegisteredStep(prior, e);
  }

  /**
   * Lines 66-68: credit the payer the full amount, or fail on a null payer;
   * this completes the expense's contribution to every net.
   */
  method Credit(net: LinkedMap, e: Expense, share: int, ghost prior: seq<Expense>) returns (ok: bool)
    requires !Skipped(e) && net.Valid()
    requires share == Share(e.amount.value, |e.participants.value|)
    requires e.payer.Some? ==> e.payer.value in net.keys
    requires forall q :: q in net.vals ==> net.vals[q] == NetOf(prior, q) - Debits(e.participants.value, q, share)
    modifies net
    ensures ok == e.payer.Some?
    ensures net.Valid() && net.keys == old(net.keys)
    ensures ok ==> Tracks(net.Value(), prior + [e])
  {
    if e.payer.None? {
      return false;
    }
    var payer := e.payer.value;
    net.Put(payer, net.vals[payer] + e.amount.value);
    forall q | q in net.vals
      ensures net.vals[q] == NetOf(prior + [e], q)
    {
      NetOfStep(prior, e, q);
    }
    return true;
  }

  /** Line 56: ensureKey for every participant, left to right. */
  method EnsureKeys(net: LinkedMap, ps: seq<string>, ghost s: seq<string>, ghost prior: seq<Expense>)
    requires net.Valid() && net.keys == Dedup(s) && Tracks(net.Value(), prior)
    requires forall q :: q in Names(prior) ==> q in s
    modifies net
    ensures net.Valid() && net.keys == Dedup(s + ps) && Tracks(net.Value(), prior)
  {
    assert s + ps[..0] == s;
    for k := 0 to |ps|
      invariant net.Valid()
      invariant net.keys == Dedup(s + ps[..k]) && Tracks(net.Value(), prior)
      invariant forall q :: q in Names(prior) ==> q in s + ps[..k]
    {
      TrackedEnsureKey(net, Some(ps[k]), s + ps[..k], prior);
      assert s + ps[..k] + [ps[k]] == s + ps[..k + 1];
    }
    assert ps[..|ps|] == ps;
  }

  /** Lines 62-65: every participant entry, duplicates included, owes one share. */
  method Debit(net: LinkedMap, ps: seq<string>, share: int)
    requires net.Valid()
    requires forall q :: q in ps ==> q in net.keys
    modifies net
    ensures net.Valid() && net.keys == old(net.keys)
    ensures forall q :: q in net.vals ==> net.vals[q] == old(net.vals)[q] - Debits(ps, q, share)
  {
    for k := 0 to |ps|
      invariant net.Valid() && net.keys == old(net.keys)
      invariant forall q :: q in net.vals ==> net.vals[q] == old(net.vals)[q] - Debits(ps[..k], q, share)
    {
      var p := ps[k];
      assert ps[..k + 1][..k] == ps[..k];
      net.Put(p, net.vals[p] - share);
    }
    assert ps[..|ps|] == ps;
  }

  /**
   * computeBalances: the balance of every registered name, in first
   * occurrence order, rounded to cents and corrected to sum to zero; or the
   * NullPointerException of a processed expense without a payer.
   */
  method ComputeBalances(xs: Option<seq<Expense>>) returns (r: Result)
    ensures r == Balances(xs)
  {
    if xs.None? || |xs.value| == 0 {
      return Ok(Empty);
    }
    var net, ok := Accumulate(xs.value);
    if !ok {
      return Failure(NullPayer);
    }
    var out, total, maxCreditor, maxDebtor := RoundNets(net);
    RoundedTracked(net.Value(), xs.value);
    CorrectDrift(out, total, maxCreditor, maxDebtor);
    return Ok(out.Value());
  }

  /** Lines 32 and 41-69: the running nets of all expenses, or a failure. */
  method Accumulate(es: seq<Expense>) returns (net: LinkedMap, ok: bool)
    ensures fresh(net) && net.Valid()
    ensures ok == !NullPayerIn(es)
    ensures ok ==> net.keys == Dedup(Names(es)) && Tracks(net.Value(), es)
  {
    net := new LinkedMap();
    for i := 0 to |es|
      invariant fresh(net) && net.Valid()
      invariant net.keys == Dedup(Names(es[..i])) && Tracks(net.Value(), es[..i])
      invariant !NullPayerIn(es[..i])
    {
      ok := ApplyExpense(net, es, i);
      NullPayerStep(es, i);
      if !ok {
        return net, false;
      }
    }
    assert es[..|es|] == es;
    return net, true;
  }

  /**
   * Lines 72-96: put every net, rounded to cents, into a fresh Balance in key
   * order while summing the rounded values and scanning for the largest
   * creditor and the largest debtor.
   */
  method RoundNets(net: LinkedMap)
    returns (out: LinkedMap, total: int, maxCreditor: Option<string>, maxDebtor: Option<string>)
    requires net.Valid()
    ensures fresh(out) && out.Valid()
    ensures out.keys == net.keys && out.vals == Rounded(net.vals)
    ensures total == SumOver(out.keys, out.vals)
    ensures maxCreditor == MaxCreditor(out.keys, out.vals)
    ensures maxDebtor == MaxDebtor(out.keys, out.vals)
  {
    var keys, vals := net.keys, net.vals;
    ghost var rounded := Rounded(vals);
    out := new LinkedMap();
    total := 0;
    maxCreditor := None;
    var maxCredVal := 0;
    maxDebtor := None;
    var maxDebtVal := 0;

    for i := 0 to |keys|
      invariant fresh(out) && out.Valid() && out.keys == keys[..i]
      invariant forall k :: k in out.vals ==> out.vals[k] == rounded[k]
      invariant Scanned(keys[..i], rounded, total, maxCreditor, maxCredVal, maxDebtor, maxDebtVal)
    {
      var name := keys[i];
      var value := ToCents(vals[name]);
      total := PutRounded(out, keys, rounded, i, name, value, total);
      maxCreditor, maxCredVal, maxDebtor, maxDebtVal :=
        ScanEntry(keys, rounded, i, name, value, maxCreditor, maxCredVal, maxDebtor, maxDebtVal);
    }
    assert keys[..|keys|] == keys;
    assert out.vals == rounded;
  }

  /**
   * The state of the loop of lines 80-96 after the keys ks: total is their
   * sum and the two candidates are those the scan keeps, with their values.
   */
  ghost predicate Scanned(ks: seq<string>, m: map<string, int>, total: int,
                          maxCreditor: Option<string>, maxCredVal: int, maxDebtor: Option<string>, maxDebtVal: int)
  {
    && (forall k :: k in ks ==> k in m)
    && total == SumOver(ks, m)
    && maxCreditor == MaxCreditor(ks, m) && (maxCreditor.Some? ==> maxCredVal == m[maxCreditor.value])
    && maxDebtor == MaxDebtor(ks, m) && (maxDebtor.Some? ==> maxDebtVal == m[maxDebtor.value])
  }

  /** Lines 82-83: out.put(name, rounded) for the next key, and add it to the total. */
  method PutRounded(out: LinkedMap, ghost keys: seq<string>, ghost m: map<string, int>, i: nat,
                    name: string, value: int, total: int) returns (total': int)
    requires i < |keys| && Distinct(keys) && (forall k :: k in keys ==> k in m)
    requires name == keys[i] && value == m[name]
    requires out.Valid() && out.keys == keys[..i] && (forall k :: k in out.vals ==> out.vals[k] == m[k])
    requires total == SumOver(keys[..i], m)
    modifies out
    ensures out.Valid() && out.keys == keys[..i + 1] && (forall k :: k in out.vals ==> out.vals[k] == m[k])
    ensures total' == SumOver(keys[..i + 1], m)
  {
    ScanStep(keys, m, i);
    assert keys[..i + 1] == keys[..i] + [name];
    assert name !in out.keys;
    out.Put(name, value);
    total' := total + value;
  }

  /**
   * Lines 85-95: the entry name = keys[i] with rounded value beats the
   * largest creditor so far when it is strictly larger and positive, and the
   * largest debtor so far when it is strictly smaller and negative.
   */
  method ScanEntry(ghost keys: seq<string>, ghost m: map<string, int>, i: nat, name: string, value: int,
                   maxCreditor: Option<string>, maxCredVal: int, maxDebtor: Option<string>, maxDebtVal: int)
    returns (maxCreditor': Option<string>, maxCredVal': int, maxDebtor': Option<string>, maxDebtVal': int)
    requires i < |keys| && (forall k :: k in keys ==> k in m) && name == keys[i] && value == m[name]
    requires maxCreditor == MaxCreditor(keys[..i], m) && (maxCreditor.Some? ==> maxCredVal == m[maxCreditor.value])
    requires maxDebtor == MaxDebtor(keys[..i], m) && (maxDebtor.Some? ==> maxDebtVal == m[maxDebtor.value])
    ensures maxCreditor' == MaxCreditor(keys[..i + 1], m) && (maxCreditor'.Some? ==> maxCredVal' == m[maxCreditor'.value])
    ensures maxDebtor' == MaxDebtor(keys[..i + 1], m) && (maxDebtor'.Some? ==> maxDebtVal' == m[maxDebtor'.value])
  {
    ScanStep(keys, m, i);
    maxCreditor', maxCredVal', maxDebtor', maxDebtVal' := maxCreditor, maxCredVal, maxDebtor, maxDebtVal;
    if value > 0 {
      if maxCreditor.None? || value > maxCredVal {
        maxCreditor', maxCredVal' := Some(name), value;
      }
    } else if value < 0 {
      if maxDebtor.None? || value < maxDebtVal {
        maxDebtor', maxDebtVal' := Some(name), value;
      }
    }
  }

  /** Every value of vals rounded half-even to cents. */
  function Rounded(vals: map<string, int>): (r: map<string, int>)
    ensures r.Keys == vals.Keys
  {
    map k | k in vals :: ToCents(vals[k])
  }

  /** Rounding a map that tracks the running nets rounds the running nets. */
  lemma RoundedTracked(m: OrderedMap, es: seq<Expense>)
    requires m.Valid() && Tracks(m, es)
    ensures Rounded(m.vals) == RoundedNets(es, m.keys)
  {
  }

  /**
   * Lines 98-110: when the rounded values do not sum to zero, subtract their
   * sum from the largest creditor (sum too positive) or the largest debtor
   * (sum too negative), falling back to anyKey.  m aliases out, as
   * out.asMap() returns the backing map.
   */
  method CorrectDrift(out: LinkedMap, total: int, maxCreditor: Option<string>, maxDebtor: Option<string>)
    requires out.Valid()
    requires total == SumOver(out.keys, out.vals)
    requires maxCreditor == MaxCreditor(out.keys, out.vals)
    requires maxDebtor == MaxDebtor(out.keys, out.vals)
    modifies out
    ensures out.Valid() && out.Value() == Settle(old(out.keys), old(out.vals))
  {
    if total != 0 {
      var m := out;
      var target: Option<string>;
      if total > 0 {
        if maxCreditor.Some? {
          target := maxCreditor;
        } else {
          target := AnyKey(m);
        }
      } else {
        if maxDebtor.Some? {
          target := maxDebtor;
        } else {
          target := AnyKey(m);
        }
      }
      assert target == DriftTarget(m.keys, m.vals, total);
      // Both branches of lines 104 and 108 perform the same put.
      if target.Some? {
        m.Put(target.value, m.vals[target.value] - total);
      }
    }
  }
}
