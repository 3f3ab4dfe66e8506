# Transaction ledger with balance check

Each user of the portfolio tracker keeps a ledger of buy and sell transactions.
The ledger is keyed by asset symbol (`transactions[crypto]`). The routes of
`src/routes/transactions.router.js` add, update and delete transactions. Each
route keeps one invariant: after the bucket is sorted by date, the running
position (the buys minus the sells, in `Big` decimal arithmetic) is never
negative at any point. A request that would break this is refused with
`TRANSACTION_INVALID` and nothing is saved. `src/helpers/transaction.helper.js`
supplies the lookup of a transaction by id across all buckets, and the
rendering of the ledger with its `Decimal128` fields turned into strings.

The model has these modules:

- `Wrappers` — `Option` and `Result`.
- `Decimals` — the `Decimal128` price and quantity as an exact decimal, with its
  plain string form and a parser of unsigned decimal literals.
- `LedgerTypes` — transactions and the ledger: a map from symbol to bucket,
  plus the order in which the keys were created.
- `Balance` — the running-position check (a loop), the date sort and its
  uniqueness, and an in-place stable sort on an array.
- `TransactionHelper` — `findTransactionByID` and `getTransactions`.
- `TransactionsRouter`:
  - the validators;
  - the handlers as functions of the ledger (`InsertOp`, `UpdateOp`, `DeleteOp`);
  - a `User` class whose `Post`, `Put` and `Delete` methods work step by step on
    the ledger and are proved to answer and persist what those functions say.
- `HandlerProperties` — what each handler does to the ledger, when it accepts,
  what id it answers with, and that every accepted request keeps the ledger
  consistent: every bucket non-empty, sorted by date and never negative.

The clock (`+new Date()`) is the parameter `now`. The `_id` mongoose assigns to
a new sub-document is the parameter `freshId`.

## Model

| member | source | states |
|---|---|---|
| Decimals.ValuePositive | src/routes/transactions.router.js:26 | a decimal is never negative, and is greater than zero exactly when its coefficient is non-zero |
| Decimals.ParseToString | src/helpers/transaction.helper.js:9 | `Parse` inverts `ToString`: the string a stored `Decimal128` renders to parses back to exactly that decimal, so the rendering loses nothing |
| Decimals.ParseWithPoint | src/routes/transactions.router.js:26 | `Parse` reads a literal `w.f` (digits `w` non-empty, digits `f`) as the decimal whose coefficient is the digits `wf` and whose scale is the number of digits of `f` |
| Decimals.ParseWithoutPoint | src/routes/transactions.router.js:31 | `Parse` reads a non-empty digit string as the integer it denotes, with scale zero |
| Decimals.ToStringParse | src/helpers/transaction.helper.js:9 | a canonical literal (digits without superfluous leading zero, optionally a point and at least one fraction digit) parses, and the stored decimal renders back to that very string |
| Decimals.ToStringCanonical | src/helpers/transaction.helper.js:9 | every rendering of a stored decimal is such a canonical literal, so the canonical literals are exactly the strings a GET can list |
| LedgerTypes.RemoveAt | src/routes/transactions.router.js:143 | `splice(i, 1)` shortens the bucket by one, keeps the elements before `i` and shifts the later ones down by one |
| LedgerTypes.RemoveAtPermutes | src/routes/transactions.router.js:96 | the splice removes exactly the element at `i`, as multisets |
| LedgerTypes.RemoveKeyKeepsOrder | src/routes/transactions.router.js:98 | deleting a key from a duplicate-free key order leaves the other keys in their creation order, which is the order the lookup by id scans |
| LedgerTypes.RemoveKey | src/routes/transactions.router.js:154 | after `delete transactions[k]` the key order lists every other key and not `k`, and stays free of duplicates |
| Balance.CheckBalance | src/routes/transactions.router.js:68-75 | the `Big` fold answers true exactly when no prefix of the bucket has a negative position |
| Balance.StableSortPermutes | src/routes/transactions.router.js:70 | `StableSort`, the date sort, is a permutation of the bucket |
| Balance.StableSortSorted | src/routes/transactions.router.js:70 | the date sort is ascending by date |
| Balance.StableSortKeepsTies | src/routes/transactions.router.js:70 | for every date, the sort keeps the transactions of that date in their original relative order (the stability of `Array.prototype.sort`) |
| Balance.StableSortUnique | src/routes/transactions.router.js:70 | any ascending rearrangement that keeps the order within every date equals the model's sort, so the model fixes the order any stable runtime sort produces |
| Balance.StableSortOfSorted | src/routes/transactions.router.js:120 | sorting an already sorted bucket leaves it unchanged |
| Balance.SortByDate | src/routes/transactions.router.js:70 | the in-place array sort leaves the array equal to the stable date sort of its old contents |
| Balance.SortedCopy | src/routes/transactions.router.js:111 | sorting a bucket through an array gives the stable date sort of the bucket |
| Balance.StableSortKeepsTotal | src/routes/transactions.router.js:70 | sorting does not change the position the whole bucket adds up to |
| Balance.StableSortKeepsCount | src/routes/transactions.router.js:70 | sorting keeps the number of transactions dated strictly after, and strictly before, any date |
| Balance.PassesFinalPosition | src/routes/transactions.router.js:67-75 | `Passes`, the check a handler runs on a bucket: a bucket that passes ends with a non-negative position, whatever order it is stored in |
| TransactionHelper.FindIndex | src/helpers/transaction.helper.js:21 | `findIndex` gives -1 exactly when no transaction has the id, and otherwise the first index holding it |
| TransactionHelper.FindById | src/helpers/transaction.helper.js:19-25 | a hit names a listed bucket and an index there holding the id, the first such index in that bucket; a miss means no listed bucket holds the id |
| TransactionHelper.FindByIdFirst | src/helpers/transaction.helper.js:20-22 | the bucket found is the first one, in key-creation order, that holds the id |
| TransactionHelper.FindByIdNone | src/helpers/transaction.helper.js:24 | on a well-formed ledger, the lookup finds nothing exactly when no bucket holds the id |
| TransactionHelper.GetTransactions | src/helpers/transaction.helper.js:2-17 | the loop over the buckets and their documents builds exactly the rendering of the ledger |
| TransactionHelper.RenderLedgerShape | src/helpers/transaction.helper.js:5-6 | `RenderLedger`, the rendering, has the ledger's keys, one document per transaction, each rendered from that transaction |
| TransactionHelper.RenderDocumentFields | src/helpers/transaction.helper.js:8-9 | rendering with `RenderValue` keeps every field name and every non-decimal value, and leaves no `Decimal128` value |
| TransactionHelper.RenderedEntries | src/helpers/transaction.helper.js:8-9 | the rendered `Entries` of a transaction are, in this order, its `_id`, `base`, `isBuy`, `price` and `quantity` (the two decimals as their strings) and `date`, then `notes` exactly when it has notes |
| TransactionHelper.RenderRoundTrip | src/helpers/transaction.helper.js:6-12 | reading a rendered transaction back (decimals parsed from their strings) gives the stored transaction |
| TransactionsRouter.Validate | src/routes/transactions.router.js:24-37 | the fields pass exactly when price and quantity are positive decimal literals and `0 <= date <= now`; a rejection is `InvalidParameters`; the accepted fields carry the parsed values and the other fields unchanged |
| TransactionsRouter.Place | src/routes/transactions.router.js:94-106 | after the move or the overwrite, the new transaction sits in the bucket of the new symbol at the index the handler records |
| TransactionsRouter.Splice | src/routes/transactions.router.js:142-154 | DELETE fails only with `TransactionInvalid` once the transaction is found |
| TransactionsRouter.Relocate | src/routes/transactions.router.js:94-106 | the step-by-step splice, key delete, key create and push (or the in-place overwrite) gives exactly the `Place` ledger and index |
| TransactionsRouter.SpliceStep | src/routes/transactions.router.js:142-154 | the step-by-step splice, sort, check and key delete gives exactly the `Splice` outcome |
| TransactionsRouter.User.List | src/routes/transactions.router.js:49-51 | GET answers the persisted ledger as `getTransactions` renders it (taking `getTransactions` to be the getter through which `req.user.transactions` is read) |
| TransactionsRouter.User.Post | src/routes/transactions.router.js:54-83 | POST answers and persists what validation followed by `InsertOp` gives; a rejection persists nothing |
| TransactionsRouter.User.Put | src/routes/transactions.router.js:86-132 | PUT answers and persists what validation followed by `UpdateOp` gives; a rejection persists nothing |
| TransactionsRouter.User.Delete | src/routes/transactions.router.js:135-161 | DELETE answers and persists what `DeleteOp` gives; a rejection persists nothing |
| TransactionsRouter.User.ClearAll | src/routers/account.router.js:110-116 | deleting all transactions leaves the empty ledger |
| HandlerProperties.AttachFacts | src/routes/transactions.router.js:58-65 | `Attach`: pushing, or creating the key, appends the transaction to that bucket only, adds the key when it was new, and keeps the ledger well-formed with one more transaction |
| HandlerProperties.DetachFacts | src/routes/transactions.router.js:96-98 | `Detach`: splicing out removes that one transaction; the key goes exactly when the bucket empties; the ledger stays well-formed with one fewer transaction |
| HandlerProperties.AttachDetachOrder | src/routes/transactions.router.js:96-102 | a key created by a push goes last in the key order, a push onto an existing key keeps the order, and a splice that empties a bucket removes only that key, keeping the others in order |
| HandlerProperties.SortBucketFacts | src/routes/transactions.router.js:70 | `SortBucket`: sorting a bucket in place permutes that bucket and changes nothing else |
| HandlerProperties.DetachSorted | src/routes/transactions.router.js:143-154 | splicing out, sorting what remains and deleting an emptied key removes exactly that transaction and leaves the rest of its bucket sorted |
| HandlerProperties.MoveAttach | src/routes/transactions.router.js:95-103 | the moving branch of PUT: after the splice, the key delete, the key create, the push and the sort, the target bucket is the sorted old target plus the new transaction, the old bucket lost exactly the moved one, and the ledger keeps its number of transactions |
| HandlerProperties.SortBucketTwice | src/routes/transactions.router.js:111-120 | sorting a bucket a second time leaves it unchanged |
| HandlerProperties.FirstSellFails | src/routes/transactions.router.js:72-74 | a sorted bucket that starts with a sell of positive quantity fails the check |
| HandlerProperties.LastAfterInsert | src/routes/transactions.router.js:81 | after sorting, the new transaction is last exactly when no earlier transaction of the bucket is dated after it |
| HandlerProperties.InsertOutcome | src/routes/transactions.router.js:54-83 | `InsertOp`, the POST handler, is accepted exactly when the bucket with the new transaction passes the check, and otherwise fails with `TransactionInvalid`; when accepted, the ledger gains the transaction in that bucket only, sorted, and stays well-formed with one more transaction |
| HandlerProperties.InsertReturnedId | src/routes/transactions.router.js:81 | POST answers with the new transaction's id exactly when no transaction of its symbol is dated after it |
| HandlerProperties.InsertEarliestSellRejected | src/routes/transactions.router.js:67-75 | a sell dated before every transaction of its symbol is rejected |
| HandlerProperties.SellToZeroAccepted | src/routes/transactions.router.js:74 | selling exactly the quantity held is accepted: the position may reach zero |
| HandlerProperties.BuyThenSellPasses | src/routes/transactions.router.js:70-75 | a buy followed by a sell of the same quantity passes the check |
| HandlerProperties.SameDateRecordingOrder | src/routes/transactions.router.js:70-75 | transactions of the same date are checked in recording order: a sell recorded before its covering buy fails, and the reverse passes |
| HandlerProperties.UnknownIdNotFound | src/routes/transactions.router.js:91-92 | PUT and DELETE answer `TRANSACTION_NOT_FOUND` exactly when no bucket holds the id (given no empty symbol key) |
| HandlerProperties.UpdateInPlace | src/routes/transactions.router.js:104-125 | PUT keeping the symbol is accepted exactly when the bucket with the transaction replaced passes; otherwise it fails with `TransactionInvalid`; when accepted, that bucket holds the replacement instead of the old transaction, sorted, and nothing else changes |
| HandlerProperties.UpdateSameDateKeepsId | src/routes/transactions.router.js:130 | PUT keeping the symbol and the date of a sorted bucket answers with the new transaction's id |
| HandlerProperties.StaysAtIndex | src/routes/transactions.router.js:105-111 | overwriting index `i` of a sorted bucket and sorting again leaves the new transaction at `i` exactly when nothing before `i` is dated later and nothing after `i` earlier |
| HandlerProperties.UpdateInPlaceReturnedId | src/routes/transactions.router.js:130 | on a sorted bucket, PUT keeping the symbol answers with the new transaction's id exactly when nothing before its index is dated later and nothing after it earlier |
| HandlerProperties.UpdateMoved | src/routes/transactions.router.js:95-125 | PUT changing the symbol is accepted exactly when both the target bucket with the new transaction and the old bucket without the old one pass; when accepted, the transaction has moved, the old key goes when its bucket empties, and the number of transactions is kept |
| HandlerProperties.UpdateMovedReturnedId | src/routes/transactions.router.js:103-130 | after a change of symbol, PUT answers with the new transaction's id exactly when no transaction of the target bucket is dated after it |
| HandlerProperties.MovingCoveringBuyRejected | src/routes/transactions.router.js:118-125 | moving the only buy away from a bucket whose other transactions are all sells is rejected |
| HandlerProperties.UpdateAnyId | src/routes/transactions.router.js:86-132 | `UpdateOp`, the PUT handler, for any id: "not found" exactly when the lookup fails or finds only the empty symbol; otherwise accepted exactly when the buckets it changes pass (the overwritten bucket, or the target and the old bucket); the only errors are these two; an accepted PUT keeps the number of transactions |
| HandlerProperties.DeleteOutcome | src/routes/transactions.router.js:135-161 | `DeleteOp`, the DELETE handler, on a found transaction is accepted exactly when the bucket without the transaction passes, and otherwise fails with `TransactionInvalid`; when accepted, exactly that transaction is gone, the rest of its bucket is sorted, and the key goes when the bucket empties |
| HandlerProperties.DeleteAnyId | src/routes/transactions.router.js:139-152 | DELETE for any id: "not found" exactly when the lookup fails or finds only the empty symbol; the only other error is the failed check; an accepted DELETE removes one transaction |
| HandlerProperties.DeleteSoleTransaction | src/routes/transactions.router.js:153-154 | deleting the only transaction of a symbol is always accepted and removes the key |
| HandlerProperties.InsertKeepsConsistent | src/routes/transactions.router.js:54-83 | an accepted POST keeps every bucket non-empty, sorted by date and never negative |
| HandlerProperties.UpdateKeepsConsistent | src/routes/transactions.router.js:86-132 | an accepted PUT keeps every bucket non-empty, sorted by date and never negative |
| HandlerProperties.DeleteKeepsConsistent | src/routes/transactions.router.js:135-161 | an accepted DELETE keeps every bucket non-empty, sorted by date and never negative |
| HandlerProperties.PostValidatesFirst | src/routes/transactions.router.js:54 | `PostOutcome`: the validators run before the handler, so POST answers `InvalidParameters` exactly when a validator rejects; past them the only error is the failed check |
| HandlerProperties.PutValidatesFirst | src/routes/transactions.router.js:86 | `PutOutcome`: PUT answers `InvalidParameters` exactly when a validator rejects; past them it answers only "not found" or the failed check |
| HandlerProperties.EmptyConsistent | src/routers/account.router.js:111 | the empty ledger, which a new user starts with and which deleting all transactions stores, is consistent |
| HandlerProperties.PostPersistsConsistent | src/routes/transactions.router.js:77-78 | what POST stores, accepted or not, is consistent whenever the ledger it started from was |
| HandlerProperties.PostThenList | src/routes/transactions.router.js:49-83 | after an accepted POST, the rendered ledger lists the new transaction under its symbol; reading it back gives the new id, the fields as the validators parsed them, and the notes exactly when non-empty; a price or quantity sent as a canonical literal is listed as exactly the string sent |
| HandlerProperties.PutPersistsConsistent | src/routes/transactions.router.js:127-128 | what PUT stores, accepted or not, is consistent whenever the ledger it started from was |
| HandlerProperties.DeletePersistsConsistent | src/routes/transactions.router.js:156-157 | what DELETE stores, accepted or not, is consistent whenever the ledger it started from was |

## Quirks of the code

The model keeps each of these as the code has it.

- PUT stores a new sub-document, so the transaction gets a fresh `_id`. The route
  answers with `newId`, not the old id.
- The id PUT answers with is read at the index the new transaction had before
  sorting, and the id POST answers with is that of the last transaction of the
  sorted bucket. Either can be another transaction's id. `InsertReturnedId` and
  `UpdateMovedReturnedId` say exactly when for POST and for a PUT that changes
  the symbol. `UpdateInPlaceReturnedId` says exactly when for a PUT that keeps
  the symbol, on a sorted bucket, which every bucket of a consistent ledger is.
- A transaction found under the empty symbol key is answered "not found", because
  the test is `!replaceCrypto`.
- Empty notes are not stored (`...(notes && { notes })`).
- The validators put no upper bound on price or quantity, and none on date
  beyond `date <= now`, so neither does `Validate`. The limits of the
  `Decimal128` storage type are listed under "Left out".

## Left out

- HandlerProperties.PostThenList: the listed string equals the sent one only
  for canonical literals; a literal the validators also accept with a
  superfluous leading zero, no integer digit or a trailing point (`"007"`,
  `".5"`, `"5."`) is listed in the model's canonical form (`"7"`, `"0.5"`,
  `"5"`). The same round trip after a PUT is not stated as a lemma of its own.
- Validate: approximates `parseFloat(v) > 0 && parseFloat(v) == v` by a parser
  of unsigned decimal literals. It does not model signs, surrounding whitespace,
  exponent notation, hexadecimal and other forms `Number` coerces, or
  floating-point rounding of long literals.
- The presence and type checks of `validateParams(validator)` are not part of
  this model: the `Request` datatype already holds typed fields. HTTP status
  codes and response bodies other than the id are left out as well.
- Decimals.Decimal is unbounded, while a `Decimal128` (src/models/transaction.js:14-22)
  holds at most 34 significant digits in a bounded exponent range. A literal the
  validators accept with more digits, such as the quantity
  "1.0000000000000000000000000000000001", is stored, checked and rendered exactly
  by the model. The database cast would round it or refuse it.
- `Decimal128` strings in exponent notation (for very large or very small
  exponents) are not modelled; `ToString` is always the plain form.
- JavaScript object-key semantics are not modelled: keys are taken in creation
  order, and integer-like keys, which `Object.entries` visits first, and
  prototype keys (`"constructor" in transactions`) are not modelled.
- Dates are integers; fractional millisecond dates and `NaN` comparisons in the
  sort are not modelled.
- Authentication, the rate limiter, e-mail and market data are outside the
  ledger and are not modelled.
- `req.user.save` and its callback errors are not modelled, since persistence is
  the `transactions` field of `User`. Concurrent requests on the same user
  (lost updates) are not modelled either.
- The mongoose `_id` generation is the `freshId` parameter, and the clock is the
  `now` parameter.
- TransactionsRouter.User.Put, TransactionsRouter.User.Post: the stored bucket
  is sorted through a copy into an array (`SortedCopy`) rather than in place
  inside the map; the resulting ledger is the same.
- TransactionsRouter.User.List: the GET route answers `req.user.transactions`.
  The model takes `getTransactions` to be the getter that renders it. The user
  model in this repository declares no `transactions` field, so that getter's
  wiring is not part of this model. The result is a map, so the key order of
  the object `getTransactions` builds is not kept.
- The mongoose Map and sub-document casting (`crypto` is dropped from the stored
  sub-document by the schema) is modelled only as the stored `Transaction`
  lacking a symbol.
