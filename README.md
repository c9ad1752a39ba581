# Expense splitter: computeBalances

This project models `Splitter.computeBalances` of the expense splitter,
together with its helpers `ensureKey` and `anyKey`, and proves properties
of the model in Dafny.

`computeBalances` takes a list of expenses. Each expense has an amount, a
payer and a list of participants. It returns a `Balance`: an
insertion-ordered map from each name to that person's net position, in
cents. A positive value means the person is owed money; a negative value
means they owe money. It works as follows:

1. Every valid expense registers its payer, then its participants.
2. Each participant entry is debited an equal share of the amount. The
   share is rounded half-even at scale 10, and duplicate entries count.
3. The payer is credited the full amount.
4. Every net is rounded half-even to cents.
5. Any rounding drift is pushed onto the largest creditor, or onto the
   largest debtor, so that the balances sum to exactly zero.

Files:

- `decimal.dfy`: BigDecimal arithmetic as exact integers.
  - Amounts and running nets are whole numbers of 10^-10 units.
  - Final values are whole cents.
  - `DivHalfEven` is the HALF_EVEN division, proved against the declarative
    `IsHalfEvenQuotient`, which it meets uniquely.
- `linked_map.dfy`: `LinkedMap`, a class for the mutable
  `LinkedHashMap<String, BigDecimal>`.
  - Its fields are an ordered `keys` sequence and a `vals` map.
  - Its value snapshot is the datatype `OrderedMap`.
- `balance_spec.dfy`: `Balances`, a reference definition of the result,
  written as functions of the expense list:
  - the key order (`Dedup(Names(xs))`);
  - each exact net (`NetOf`), the sum of per-expense `Contribution`s;
  - the scan (`MaxCreditor`, `MaxDebtor`);
  - the correction (`Settle`, `DriftTarget`).
- `splitter.dfy`: the imperative model of `computeBalances`, `ensureKey` and
  `anyKey`.
  - It mutates `LinkedMap` objects with the source's loops.
  - `ComputeBalances` is proved equal to `Balances`.
- `balance_properties.dfy`: what the source promises, proved about the
  reference definition:
  - keys are unique and in first-registration order;
  - skipped expenses change nothing;
  - duplicate participants owe one share per listing;
  - the scan finds the first largest creditor or debtor;
  - the `anyKey` fallback is never reached;
  - the result sums to zero, and at most one entry differs from its rounded
    net.
- `scenarios.dfy`: the worked case of 10.00 split three ways.

Assumptions of the model:

- Amounts carry at most 10 fractional digits, so every BigDecimal operation
  is exact integer arithmetic except the two explicit roundings. Amounts
  are given in 10^-10 units.
- `Balance` is an insertion-ordered map, and `asMap()` returns its own
  backing map. The drift correction therefore writes through into `out`.
  `Balance` is not part of this model.
- A Java `null` field of an `Expense`, and a `null` list, are `None`.
- A processed expense with a null payer makes `net.get(payer).add(...)`
  throw a NullPointerException at line 68. The model returns
  `Failure(NullPayer)` in that case.

## Model

| member | source | states |
|---|---|---|
| Decimal.DivHalfEven | src/main/java/itm/oss/splitter/Splitter.java:38 | the quotient is the nearest integer to a / n, and the even one at a tie (RoundingMode.HALF_EVEN), for either sign of a |
| Decimal.HalfEvenQuotientUnique | src/main/java/itm/oss/splitter/Splitter.java:38 | any quotient with the half-even property equals DivHalfEven: the rounding is uniquely determined |
| Decimal.Share | src/main/java/itm/oss/splitter/Splitter.java:59 | amount.divide(n, 10, HALF_EVEN) is the half-even quotient of the amount in 10^-10 units by n |
| Decimal.ToCents | src/main/java/itm/oss/splitter/Splitter.java:81 | setScale(2, HALF_EVEN) is the half-even quotient of the units by 10^8 |
| Decimal.ExactShare | src/main/java/itm/oss/splitter/Splitter.java:59 | an amount that n divides evenly is split exactly: share * n == amount |
| Decimal.WholeCentsUnchanged | src/main/java/itm/oss/splitter/Splitter.java:81 | rounding a value that is already in whole cents returns it unchanged |
| LinkedMaps.LinkedMap.constructor | src/main/java/itm/oss/splitter/Splitter.java:32 | a new map is valid and empty |
| LinkedMaps.LinkedMap.ContainsKey | src/main/java/itm/oss/splitter/Splitter.java:119 | containsKey(k) holds exactly when k is one of the keys |
| LinkedMaps.LinkedMap.Put | src/main/java/itm/oss/splitter/Splitter.java:64 | put binds k to v; a new key is appended to the order, an existing key keeps its place; the keys stay distinct |
| BalanceSpec.MaxCreditor | src/main/java/itm/oss/splitter/Splitter.java:85-89 | the creditor the scan keeps is one of the keys and has a positive value |
| BalanceSpec.MaxDebtor | src/main/java/itm/oss/splitter/Splitter.java:90-94 | the debtor the scan keeps is one of the keys and has a negative value |
| BalanceSpec.FirstKeyOf | src/main/java/itm/oss/splitter/Splitter.java:122-125 | anyKey's answer: none exactly for an empty map, otherwise the first key |
| BalanceSpec.DriftTarget | src/main/java/itm/oss/splitter/Splitter.java:101-108 | the entry charged with the drift is always one of the keys |
| BalanceSpec.RoundedNets | src/main/java/itm/oss/splitter/Splitter.java:80-82 | exactly the registered keys get a rounded value |
| Decimal.IsHalfEvenQuotient | src/main/java/itm/oss/splitter/Splitter.java:38 | definition: q * n lies strictly within n / 2 of a, or exactly n / 2 from it with q even; DivHalfEven meets it and HalfEvenQuotientUnique shows it fixes q |
| BalanceSpec.Skipped | src/main/java/itm/oss/splitter/Splitter.java:49 | definition: an expense with a null amount, null participants or no participants is passed over; SkippedExpenseIgnored proves it changes nothing |
| BalanceSpec.FailsOnPayer | src/main/java/itm/oss/splitter/Splitter.java:67-68 | definition: a processed expense with a null payer, on which net.get(payer) is null and add throws |
| BalanceSpec.NullPayerIn | src/main/java/itm/oss/splitter/Splitter.java:41-68 | definition: some expense of the list fails on its payer; NullPayerStep and ApplyExpense tie it to the loop |
| BalanceSpec.PayerNames | src/main/java/itm/oss/splitter/Splitter.java:118 | definition: the payer registers its name unless it is null |
| BalanceSpec.Registered | src/main/java/itm/oss/splitter/Splitter.java:49-56 | definition: a processed expense registers its payer, then its participants in list order; a skipped one registers nothing |
| BalanceSpec.Names | src/main/java/itm/oss/splitter/Splitter.java:41-56 | definition: the names registered by the whole list, front to back, with repeats; NamesAppend proves it splits over concatenation |
| BalanceSpec.Dedup | src/main/java/itm/oss/splitter/Splitter.java:119 | definition: each name at its first occurrence; DedupMembers, DedupDistinct and DedupFirstOccurrence prove the key set, uniqueness and order |
| BalanceSpec.Count | src/main/java/itm/oss/splitter/Splitter.java:62-65 | definition: how many times a name is listed; DebitsCount relates it to the debit |
| BalanceSpec.Debits | src/main/java/itm/oss/splitter/Splitter.java:62-65 | definition: the total debited to a name, one share per listing; DebitsCount and DebitsAbsent prove its value |
| BalanceSpec.Contribution | src/main/java/itm/oss/splitter/Splitter.java:51-68 | definition: what one expense adds to a name's net; ContributionOf states it as payer credit minus per-listing shares |
| BalanceSpec.NetOf | src/main/java/itm/oss/splitter/Splitter.java:41-69 | definition: a name's exact net, the sum of the contributions of all expenses; NetOfAppend proves it splits over concatenation |
| BalanceSpec.SumOver | src/main/java/itm/oss/splitter/Splitter.java:83 | definition: the sum of the values of the given keys; SumOverUpdate and SumOverFrame state how it changes |
| BalanceSpec.Settle | src/main/java/itm/oss/splitter/Splitter.java:98-110 | the correction keeps the key order and the set of bound keys; SettleBalances proves the sum becomes zero |
| BalanceSpec.Balances | src/main/java/itm/oss/splitter/Splitter.java:31-113 | the result is a failure exactly for a non-empty list with a processed null-payer expense, and a computed balance binds exactly its keys |
| BalanceProperties.DedupMembers | src/main/java/itm/oss/splitter/Splitter.java:117-120 | registering a stream of names keeps exactly the names of the stream |
| BalanceProperties.DedupDistinct | src/main/java/itm/oss/splitter/Splitter.java:119 | no name is registered twice |
| BalanceProperties.IndexOf | src/main/java/itm/oss/splitter/Splitter.java:55-56 | the position found holds x, and x occurs nowhere before it |
| BalanceProperties.DedupFirstOccurrence | src/main/java/itm/oss/splitter/Splitter.java:55-56 | the keys appear in the order of their first registration |
| BalanceProperties.IndexOfExtend | src/main/java/itm/oss/splitter/Splitter.java:56 | registering more names does not move an earlier first occurrence |
| BalanceProperties.DedupPrefix | src/main/java/itm/oss/splitter/Splitter.java:55-56 | later registrations only append: the keys so far remain a prefix |
| BalanceProperties.LoneExpenseKeys | src/main/java/itm/oss/splitter/Splitter.java:55-56 | for a single expense the payer is the first key, followed by the new participants in order |
| BalanceProperties.UnregisteredNetIsZero | src/main/java/itm/oss/splitter/Splitter.java:55-69 | a name that no expense registers has a running net of zero |
| BalanceProperties.DebitsAbsent | src/main/java/itm/oss/splitter/Splitter.java:62-65 | a name not among the participants is not debited |
| BalanceProperties.NamesStep | src/main/java/itm/oss/splitter/Splitter.java:41-56 | the names of one more expense follow the names of the earlier ones |
| BalanceProperties.RegisteredStep | src/main/java/itm/oss/splitter/Splitter.java:55-56 | after an expense, its payer and participants are all registered, in the order payer, then participants |
| BalanceProperties.NullPayerStep | src/main/java/itm/oss/splitter/Splitter.java:67-68 | some expense so far fails on a null payer exactly when an earlier one did or this one does; a failing one makes the whole call fail |
| BalanceProperties.NetOfStep | src/main/java/itm/oss/splitter/Splitter.java:41-69 | each expense adds exactly its contribution to every running net |
| BalanceProperties.ScanStep | src/main/java/itm/oss/splitter/Splitter.java:80-96 | one more key extends the sum and the two scans by exactly the step of lines 83-95 |
| BalanceProperties.NamesAppend | src/main/java/itm/oss/splitter/Splitter.java:41-56 | the names of two lists, one after the other, are the names of the first followed by those of the second |
| BalanceProperties.NetOfAppend | src/main/java/itm/oss/splitter/Splitter.java:41-69 | the net over two lists, one after the other, is the sum of the nets over each |
| BalanceProperties.NullPayerWithout | src/main/java/itm/oss/splitter/Splitter.java:49 | removing a skipped expense from anywhere in the list does not change whether the call fails on a null payer |
| BalanceProperties.NamesWithout | src/main/java/itm/oss/splitter/Splitter.java:49 | removing a skipped expense from anywhere in the list does not change the registered names |
| BalanceProperties.NetOfWithout | src/main/java/itm/oss/splitter/Splitter.java:49 | removing a skipped expense from anywhere in the list does not change any net |
| BalanceProperties.SkippedExpenseIgnored | src/main/java/itm/oss/splitter/Splitter.java:49 | an expense without an amount or without participants, at any position of the list, leaves the result unchanged |
| BalanceProperties.AllSkippedIsEmpty | src/main/java/itm/oss/splitter/Splitter.java:49 | a list of only skipped expenses gives the empty balance |
| BalanceProperties.NoNamesWhenAllSkipped | src/main/java/itm/oss/splitter/Splitter.java:49 | skipped expenses register no name |
| BalanceProperties.DebitsCount | src/main/java/itm/oss/splitter/Splitter.java:62-65 | a participant listed c times is debited c shares |
| BalanceProperties.ContributionOf | src/main/java/itm/oss/splitter/Splitter.java:51-68 | an expense credits its payer the full amount and debits each name one share per listing, where n counts duplicates |
| BalanceProperties.MaxCreditorFound | src/main/java/itm/oss/splitter/Splitter.java:85-89 | the scan finds no creditor exactly when no value is positive; otherwise it finds the first entry with the largest value |
| BalanceProperties.MaxCreditorIsFirstMax | src/main/java/itm/oss/splitter/Splitter.java:85-89 | over distinct keys: keys[i] is the first entry with the largest positive value if and only if the scan picks keys[i] |
| BalanceProperties.MaxDebtorFound | src/main/java/itm/oss/splitter/Splitter.java:90-94 | the scan finds no debtor exactly when no value is negative; otherwise it finds the first entry with the most negative value |
| BalanceProperties.MaxDebtorIsFirstMax | src/main/java/itm/oss/splitter/Splitter.java:90-94 | over distinct keys: keys[i] is the first entry with the most negative value if and only if the scan picks keys[i] |
| BalanceProperties.SignedSumHasSignedTerm | src/main/java/itm/oss/splitter/Splitter.java:101-108 | a positive total has a positive entry, and a negative total a negative entry |
| BalanceProperties.DriftTargetIsScanResult | src/main/java/itm/oss/splitter/Splitter.java:101-108 | with a positive total a creditor exists and receives the drift, and likewise a debtor with a negative total; the anyKey fallback is never taken |
| BalanceProperties.SumOverUpdate | src/main/java/itm/oss/splitter/Splitter.java:104 | changing one entry among distinct keys changes the total by the difference |
| BalanceProperties.SumOverFrame | src/main/java/itm/oss/splitter/Splitter.java:104 | an entry outside the keys does not count toward their total |
| BalanceProperties.SettleBalances | src/main/java/itm/oss/splitter/Splitter.java:98-110 | after the correction: the keys are unchanged and the values sum to zero; a zero total changes nothing; otherwise exactly the target changes, by minus the total |
| BalanceProperties.BalanceSumsToZero | src/main/java/itm/oss/splitter/Splitter.java:31-113 | a computed balance is valid, has exactly the registered names in first-registration order, sums to zero, and at most one entry differs from its rounded net |
| Splitter.EnsureKey | src/main/java/itm/oss/splitter/Splitter.java:117-120 | null and present keys leave the map unchanged; a new key is appended with value zero |
| Splitter.AnyKey | src/main/java/itm/oss/splitter/Splitter.java:122-125 | null exactly for an empty map, otherwise the first key in iteration order |
| Splitter.EnsureKeyStep | src/main/java/itm/oss/splitter/Splitter.java:117-120 | one ensureKey extends the registered names by the key, and a new entry's zero is that name's running net |
| Splitter.TrackedEnsureKey | src/main/java/itm/oss/splitter/Splitter.java:55 | ensureKey keeps the map equal to the registered names so far and keeps every entry's running net |
| Splitter.ApplyExpense | src/main/java/itm/oss/splitter/Splitter.java:42-68 | one iteration: it fails exactly on a processed expense with a null payer; otherwise the keys and every net account for one more expense |
| Splitter.SkippedStep | src/main/java/itm/oss/splitter/Splitter.java:49 | a skipped expense registers nothing and changes no net |
| Splitter.Register | src/main/java/itm/oss/splitter/Splitter.java:55-56 | the payer and then the participants are registered, and every net is kept |
| Splitter.Credit | src/main/java/itm/oss/splitter/Splitter.java:66-68 | it fails exactly on a null payer; otherwise the payer receives the amount, which completes the expense's contribution to every net |
| Splitter.EnsureKeys | src/main/java/itm/oss/splitter/Splitter.java:56 | the participants are registered left to right, and every net is kept |
| Splitter.Debit | src/main/java/itm/oss/splitter/Splitter.java:62-65 | every entry loses one share per listing, and the keys are unchanged |
| Splitter.ComputeBalances | src/main/java/itm/oss/splitter/Splitter.java:31-113 | the result equals the reference Balances, which gives: empty for a null or empty list, a failure on a null payer, and otherwise the settled rounded nets |
| Splitter.Accumulate | src/main/java/itm/oss/splitter/Splitter.java:41-69 | it fails exactly when some processed expense has a null payer; otherwise the keys are the names in first-registration order and every entry is its exact net |
| Splitter.RoundNets | src/main/java/itm/oss/splitter/Splitter.java:72-96 | out has the same keys in the same order with every value rounded to cents; total is their sum; the two candidates are the scan's largest creditor and largest debtor |
| Splitter.PutRounded | src/main/java/itm/oss/splitter/Splitter.java:82-83 | the next key is appended to out with its rounded value, and the total grows by that value |
| Splitter.ScanEntry | src/main/java/itm/oss/splitter/Splitter.java:85-95 | the candidates after the next key are the scan's result on one more key |
| Splitter.Rounded | src/main/java/itm/oss/splitter/Splitter.java:81 | rounding keeps the set of keys |
| Splitter.RoundedTracked | src/main/java/itm/oss/splitter/Splitter.java:80-81 | rounding the map of exact nets gives the rounded nets of the registered names |
| Splitter.CorrectDrift | src/main/java/itm/oss/splitter/Splitter.java:98-110 | out becomes the settled map: the drift target, chosen as in the source, loses the total |
| Scenarios.TenSplitThreeWays | src/main/java/itm/oss/splitter/Splitter.java:31-113 | A pays 10.00 for A, B and C: the result is A 6.66, B -3.33, C -3.33 |
| Scenarios.TrioKeys | src/main/java/itm/oss/splitter/Splitter.java:55-56 | the keys of that case are A, B, C: the repeated A is dropped |
| Scenarios.TrioNets | src/main/java/itm/oss/splitter/Splitter.java:59-68 | the exact nets are +6.6666666667, -3.3333333333 and -3.3333333333 |
| Scenarios.TrioRounded | src/main/java/itm/oss/splitter/Splitter.java:81 | they round to +6.67 and -3.33 |
| Scenarios.TrioSettle | src/main/java/itm/oss/splitter/Splitter.java:98-110 | the one cent of drift comes off the largest creditor, A |

## Left out

- `ExpenseValidator.validate` (line 45) is a no-op hook, so it is not modelled.
- The internals of `Expense` and `Balance` are not part of this model.
  - `Balance` is assumed to be an insertion-ordered map whose `asMap()` returns the backing map itself.
  - The model returns a snapshot of that map.
- A `null` element of the expense list is not modelled, nor a `null` name inside a participant list. Only a null payer is modelled, as a failure.
- The NullPointerException is modelled as a failure. Expenses handled before the failing one are not observable.
- BigDecimal amounts with more than 10 fractional digits are not modelled.
  - Every amount is an integer number of 10^-10 units.
  - Scale differences that `compareTo` ignores are not represented.
- No bound on the total rounding error is stated. The error depends on the number of participants and of expenses.
- `Splitter.CorrectDrift` writes the `put` of lines 104 and 108 once after choosing the target. The source has one in each branch. The effect is the same.
