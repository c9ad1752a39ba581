/**
 * The reference definition of the balances that Splitter.computeBalances
 * produces, written as functions of the expense list.
 *
 * Assumptions of the model:
 *  - amounts have at most 10 fractional digits and are given in working units
 *    (10^-10), so every BigDecimal operation of the source is exact integer
 *    arithmetic apart from the two explicit HALF_EVEN roundings;
 *  - a final balance value is given in cents;
 *  - Balance is an insertion-ordered map whose asMap() is its own backing map.
 */
module BalanceSpec {
  import opened Options
  import opened Decimal
  import opened LinkedMaps

  /** An expense record; None stands for a null field. */
  datatype Expense = Expense(amount: Option<int>, payer: Option<string>, participants: Option<seq<string>>)

  /** The one way computeBalances fails: a NullPointerException on a null payer. */
  datatype Error = NullPayer

  datatype Result = Ok(balance: OrderedMap) | Failure(error: Error)

  /** An expense without an amount or without participants contributes nothing. */
  predicate Skipped(e: Expense) {
    e.amount.None? || e.participants.None? || |e.participants.value| == 0
  }

  /** A processed expense whose null payer makes net.get(payer).add(...) throw. */
  predicate FailsOnPayer(e: Expense) {
    !Skipped(e) && e.payer.None?
  }

  predicate NullPayerIn(xs: seq<Expense>) {
    exists i :: 0 <= i < |xs| && FailsOnPayer(xs[i])
  }

  /** The payer as a list of names: ensureKey ignores a null key. */
  function PayerNames(payer: Option<string>): seq<string> {
    if payer.Some? then [payer.value] else []
  }

  /** The names one expense registers, in order: payer first, then participants. */
  function Registered(e: Expense): seq<string> {
    if Skipped(e) then [] else PayerNames(e.payer) + e.participants.value
  }

  /** Every name registered by the expenses, front to back, repeats included. */
  function Names(xs: seq<Expense>): seq<string> {
    if |xs| == 0 then [] else Names(xs[..|xs| - 1]) + Registered(xs[|xs| - 1])
  }

  /** The elements of s, each at its first occurrence. */
  function Dedup<T(==)>(s: seq<T>): seq<T> {
    if |s| == 0 then []
    else
      var d := Dedup(s[..|s| - 1]);
      if s[|s| - 1] in d then d else d + [s[|s| - 1]]
  }

  /** How many times k occurs in s. */
  function Count<T(==)>(s: seq<T>, k: T): nat {
    if |s| == 0 then 0
    else Count(s[..|s| - 1], k) + (if s[|s| - 1] == k then 1 else 0)
  }

  /** What the participant list ps debits k: one share per entry that is k. */
  function Debits(ps: seq<string>, k: string, share: int): int {
    if |ps| == 0 then 0
    else Debits(ps[..|ps| - 1], k, share) + (if ps[|ps| - 1] == k then share else 0)
  }

  /**
   * What one expense adds to k's running net: the full amount if k paid,
   * less one share for every time k is listed as a participant, where the
   * share is amount / n at scale 10 and n counts duplicates.
   */
  function Contribution(e: Expense, k: string): int {
    if Skipped(e) then 0
    else
      var ps := e.participants.value;
      var share := Share(e.amount.value, |ps|);
      (if e.payer == Some(k) then e.amount.value else 0) - Debits(ps, k, share)
  }

  /** k's exact running net after all expenses, in working units. */
  function NetOf(xs: seq<Expense>, k: string): int {
    if |xs| == 0 then 0 else NetOf(xs[..|xs| - 1], k) + Contribution(xs[|xs| - 1], k)
  }

  /** The sum of the values of the given keys. */
  function SumOver(keys: seq<string>, m: map<string, int>): int
    requires forall k :: k in keys ==> k in m
  {
    if |keys| == 0 then 0 else SumOver(keys[..|keys| - 1], m) + m[keys[|keys| - 1]]
  }

  /**
   * The entry a left-to-right scan keeps as the largest creditor: it takes a
   * positive value when there is no candidate yet or the value beats the
   * candidate's strictly.
   */
  function MaxCreditor(keys: seq<string>, m: map<string, int>): (t: Option<string>)
    requires forall k :: k in keys ==> k in m
    ensures t.Some? ==> t.value in keys && m[t.value] > 0
  {
    if |keys| == 0 then None
    else
      var best := MaxCreditor(keys[..|keys| - 1], m);
      var k := keys[|keys| - 1];
      if m[k] > 0 && (best.None? || m[k] > m[best.value]) then Some(k) else best
  }

  /** The mirror image of MaxCreditor for negative values. */
  function MaxDebtor(keys: seq<string>, m: map<string, int>): (t: Option<string>)
    requires forall k :: k in keys ==> k in m
    ensures t.Some? ==> t.value in keys && m[t.value] < 0
  {
    if |keys| == 0 then None
    else
      var best := MaxDebtor(keys[..|keys| - 1], m);
      var k := keys[|keys| - 1];
      if m[k] < 0 && (best.None? || m[k] < m[best.value]) then Some(k) else best
  }

  /** anyKey: the first key, if there is one. */
  function FirstKeyOf(keys: seq<string>): (t: Option<string>)
    ensures t.None? <==> |keys| == 0
    ensures t.Some? ==> t.value == keys[0]
  {
    if |keys| == 0 then None else Some(keys[0])
  }

  /**
   * The entry that absorbs a drift of total: the largest creditor when the
   * sum is too positive, the largest debtor when it is too negative, and the
   * first key when that role is unfilled.
   */
  function DriftTarget(keys: seq<string>, m: map<string, int>, total: int): (t: Option<string>)
    requires forall k :: k in keys ==> k in m
    ensures t.Some? ==> t.value in keys
  {
    var best := if total > 0 then MaxCreditor(keys, m) else MaxDebtor(keys, m);
    if best.Some? then best else FirstKeyOf(keys)
  }

  /** Every running net rounded half-even to cents. */
  function RoundedNets(xs: seq<Expense>, keys: seq<string>): (m: map<string, int>)
    ensures forall k :: k in m <==> k in keys
  {
    map k | k in keys :: ToCents(NetOf(xs, k))
  }

  /** The drift correction: subtract the sum of the values from the target. */
  function Settle(keys: seq<string>, m: map<string, int>): (r: OrderedMap)
    requires forall k :: k in keys ==> k in m
    ensures r.keys == keys
    ensures forall k :: k in r.vals <==> k in m
  {
    var total := SumOver(keys, m);
    if total == 0 then OrderedMap(keys, m)
    else
      match DriftTarget(keys, m, total)
      case None => OrderedMap(keys, m)
      case Some(t) => OrderedMap(keys, m[t := m[t] - total])
  }

  /** The result of computeBalances for a possibly null expense list. */
  function Balances(input: Option<seq<Expense>>): (r: Result)
    ensures r.Failure? <==> input.Some? && |input.value| > 0 && NullPayerIn(input.value)
    ensures r.Ok? ==> forall k :: k in r.balance.vals <==> k in r.balance.keys
  {
    if input.None? || |input.value| == 0 then Ok(Empty)
    else if NullPayerIn(input.value) then Failure(NullPayer)
    else
      var keys := Dedup(Names(input.value));
      Ok(Settle(keys, RoundedNets(input.value, keys)))
  }
}
