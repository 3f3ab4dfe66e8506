/** src/routes/transactions.router.js: the field validators and the POST,
    PUT and DELETE handlers of the transaction ledger, and the "delete all
    transactions" route of src/routers/account.router.js. */
module TransactionsRouter {
  import opened Wrappers
  import opened Decimals
  import opened LedgerTypes
  import opened Balance
  import opened TransactionHelper

  /** The errors the handlers pass to `next`. */
  datatype Error =
    | InvalidParameters    // a validator rejected a field (HTTP 422)
    | TransactionNotFound  // TRANSACTION_NOT_FOUND
    | TransactionInvalid   // TRANSACTION_INVALID: a position would go negative

  /** A request body as the parameter check hands it over: every required
      field present with its primitive type, `notes` optional. */
  datatype Request = Request(
    crypto: Symbol,
    base: string,
    isBuy: bool,
    price: string,
    quantity: string,
    date: int,
    notes: Option<string>)

  /** A request whose fields passed the validators. */
  datatype Fields = Fields(
    crypto: Symbol,
    base: string,
    isBuy: bool,
    price: Decimal,
    quantity: Decimal,
    date: int,
    notes: Option<string>)

  // ---------------------------------------------------------------------
  // Validators

  /** The price and quantity validator: a decimal literal greater than 0. */
  predicate PositiveDecimal(s: string)
  {
    Parse(s).Some? && Parse(s).value.coefficient > 0
  }

  /** The validators of `price`, `quantity` and `date`, with `now` standing
      for `+new Date()`. */
  function Validate(req: Request, now: int): (r: Result<Fields, Error>)
    ensures r.Success? <==> PositiveDecimal(req.price) && PositiveDecimal(req.quantity) && 0 <= req.date <= now
    ensures r.Failure? ==> r.error == InvalidParameters
    ensures r.Success? ==> Value(r.value.price) > 0.0 && Value(r.value.quantity) > 0.0 && 0 <= r.value.date <= now
    ensures r.Success? ==> Parse(req.price) == Some(r.value.price) && Parse(req.quantity) == Some(r.value.quantity)
    ensures r.Success? ==> r.value.crypto == req.crypto && r.value.base == req.base && r.value.isBuy == req.isBuy
                           && r.value.date == req.date && r.value.notes == req.notes
  {
    if PositiveDecimal(req.price) && PositiveDecimal(req.quantity) && 0 <= req.date <= now then
      var price, quantity := Parse(req.price).value, Parse(req.quantity).value;
      ValuePositive(price);
      ValuePositive(quantity);
      Success(Fields(req.crypto, req.base, req.isBuy, price, quantity, req.date, req.notes))
    else
      Failure(InvalidParameters)
  }

  // ---------------------------------------------------------------------
  // The ledger steps the handlers perform

  /** The stored transaction built from the fields; `...(notes && { notes })`
      stores no notes when they are missing or empty. */
  function NewTransaction(f: Fields, id: Id): Transaction
  {
    Transaction(id, f.base, f.isBuy, f.price, f.quantity, f.date,
                if f.notes.Some? && f.notes.value != "" then f.notes else None)
  }

  /** The bucket of `c`, or the empty list when `c` has none. */
  function Bucket(l: Ledger, c: Symbol): seq<Transaction>
  {
    if c in l.buckets then l.buckets[c] else []
  }

  /** Appends `t` to the bucket of `c`, creating the key when absent. */
  function Attach(l: Ledger, c: Symbol, t: Transaction): (r: Ledger)
    ensures c in r.buckets && |r.buckets[c]| > 0
  {
    if c in l.buckets then Ledger(l.order, l.buckets[c := l.buckets[c] + [t]])
    else Ledger(l.order + [c], l.buckets[c := [t]])
  }

  /** Splices out `l.buckets[c][i]`, deleting the key when the bucket empties. */
  function Detach(l: Ledger, c: Symbol, i: nat): Ledger
    requires c in l.buckets && i < |l.buckets[c]|
  {
    var rest := RemoveAt(l.buckets[c], i);
    if |rest| == 0 then Ledger(RemoveKey(l.order, c), l.buckets - {c})
    else Ledger(l.order, l.buckets[c := rest])
  }

  /** Sorts the bucket of `c` in place. */
  function SortBucket(l: Ledger, c: Symbol): (r: Ledger)
    requires c in l.buckets
    ensures c in r.buckets && |r.buckets[c]| == |l.buckets[c]|
  {
    Ledger(l.order, l.buckets[c := StableSort(l.buckets[c])])
  }

  // ---------------------------------------------------------------------
  // The handlers, as functions of the ledger they are given

  /** POST: push the new transaction, sort its bucket, check it; the
      response id is that of the last transaction of the sorted bucket. */
  function InsertOp(l: Ledger, f: Fields, freshId: Id): Result<(Ledger, Id), Error>
  {
    var s := SortBucket(Attach(l, f.crypto, NewTransaction(f, freshId)), f.crypto);
    var sorted := s.buckets[f.crypto];
    if !NonNegativePrefixes(sorted) then Failure(TransactionInvalid)
    else Success((s, sorted[|sorted| - 1].id))
  }

  /** The first step of PUT: with `rc` the old symbol and `c` the new one,
      either move the transaction to the end of the bucket of `c` (the old
      bucket losing its key when it empties) or overwrite it in place; also
      the index the new transaction then has. */
  function Place(l: Ledger, rc: Symbol, i: nat, c: Symbol, t: Transaction): (r: (Ledger, nat))
    requires rc in l.buckets && i < |l.buckets[rc]|
    ensures c in r.0.buckets && r.1 < |r.0.buckets[c]| && r.0.buckets[c][r.1] == t
  {
    if rc != c then
      var m := Attach(Detach(l, rc, i), c, t);
      (m, |m.buckets[c]| - 1)
    else (Ledger(l.order, l.buckets[rc := l.buckets[rc][i := t]]), i)
  }

  /** PUT: locate the transaction; move it to another bucket or overwrite it
      in place; sort and check the new bucket, then the old one; the
      response id is that of whatever sits, after sorting, at the index the
      new transaction had before sorting. */
  function UpdateOp(l: Ledger, id: Id, f: Fields, freshId: Id): Result<(Ledger, Id), Error>
  {
    match FindById(l, id)
    case None => Failure(TransactionNotFound)
    case Some(found) =>
      var rc, i := found.crypto, found.i;
      if rc == "" then Failure(TransactionNotFound)
      else
        var (m, ni) := Place(l, rc, i, f.crypto, NewTransaction(f, freshId));
        var s := SortBucket(m, f.crypto);
        if !NonNegativePrefixes(s.buckets[f.crypto]) then Failure(TransactionInvalid)
        else
          var s' := if rc in s.buckets then SortBucket(s, rc) else s;
          if !NonNegativePrefixes(Bucket(s', rc)) then Failure(TransactionInvalid)
          else Success((s', s'.buckets[f.crypto][ni].id))
  }

  /** The splice, sort and check of DELETE once the transaction is found. */
  function Splice(l: Ledger, rc: Symbol, i: nat): (r: Result<Ledger, Error>)
    requires rc in l.buckets && i < |l.buckets[rc]|
    ensures r.Failure? ==> r.error == TransactionInvalid
  {
    var rest := StableSort(RemoveAt(l.buckets[rc], i));
    if !NonNegativePrefixes(rest) then Failure(TransactionInvalid)
    else if |rest| == 0 then Success(Ledger(RemoveKey(l.order, rc), l.buckets - {rc}))
    else Success(Ledger(l.order, l.buckets[rc := rest]))
  }

  /** DELETE: locate the transaction, splice it out, sort and check what
      remains, delete the key when nothing remains. */
  function DeleteOp(l: Ledger, id: Id): Result<(Ledger, ()), Error>
  {
    match FindById(l, id)
    case None => Failure(TransactionNotFound)
    case Some(found) =>
      if found.crypto == "" then Failure(TransactionNotFound)
      else
        match Splice(l, found.crypto, found.i)
        case Failure(e) => Failure(e)
        case Success(l') => Success((l', ()))
  }

  /** The whole POST route: validators first, then the handler. */
  function PostOutcome(l: Ledger, req: Request, now: int, freshId: Id): Result<(Ledger, Id), Error>
  {
    match Validate(req, now)
    case Failure(e) => Failure(e)
    case Success(f) => InsertOp(l, f, freshId)
  }

  /** The whole PUT route: validators first, then the handler. */
  function PutOutcome(l: Ledger, id: Id, req: Request, now: int, freshId: Id): Result<(Ledger, Id), Error>
  {
    match Validate(req, now)
    case Failure(e) => Failure(e)
    case Success(f) => UpdateOp(l, id, f, freshId)
  }

  /** What the route answers. */
  function Response<T>(o: Result<(Ledger, T), Error>): Result<T, Error>
  {
    match o
    case Success((_, v)) => Success(v)
    case Failure(e) => Failure(e)
  }

  /** What is persisted: the new ledger when `save` is reached, else the old one. */
  function Persisted<T>(l: Ledger, o: Result<(Ledger, T), Error>): Ledger
  {
    match o
    case Success((l', _)) => l'
    case Failure(_) => l
  }

  /** The first step of PUT on a working copy of the ledger: splice the
      transaction out of its bucket, drop the key when the bucket empties,
      create the new key when absent and push; or overwrite it in place. */
  method Relocate(l: Ledger, rc: Symbol, i: nat, c: Symbol, t: Transaction)
    returns (order: seq<Symbol>, buckets: map<Symbol, seq<Transaction>>, ni: nat)
    requires rc in l.buckets && i < |l.buckets[rc]|
    ensures (Ledger(order, buckets), ni) == Place(l, rc, i, c, t)
  {
    order, buckets := l.order, l.buckets;
    if rc != c {
      buckets := buckets[rc := RemoveAt(buckets[rc], i)];
      if |buckets[rc]| == 0 {
        order := RemoveKey(order, rc);
        buckets := buckets - {rc};
      }
      ghost var d := Ledger(order, buckets);
      assert d == Detach(l, rc, i);
      if c !in buckets {
        order := order + [c];
        buckets := buckets[c := []];
      }
      assert c !in d.buckets ==> buckets[c] + [t] == [t];
      buckets := buckets[c := buckets[c] + [t]];
      assert Ledger(order, buckets) == Attach(d, c, t);
      ni := |buckets[c]| - 1;
    } else {
      buckets := buckets[rc := buckets[rc][i := t]];
      ni := i;
    }
  }

  /** The splice, sort and check of DELETE on a working copy of the ledger. */
  method SpliceStep(l: Ledger, rc: Symbol, i: nat) returns (r: Result<Ledger, Error>)
    requires rc in l.buckets && i < |l.buckets[rc]|
    ensures r == Splice(l, rc, i)
  {
    var order, buckets := l.order, l.buckets;
    buckets := buckets[rc := RemoveAt(buckets[rc], i)];
    var sorted := SortedCopy(buckets[rc]);
    buckets := buckets[rc := sorted];
    var ok := CheckBalance(sorted);
    if !ok {
      return Failure(TransactionInvalid);
    }
    if |buckets[rc]| == 0 {
      order := RemoveKey(order, rc);
      buckets := buckets - {rc};
      assert buckets == l.buckets - {rc};
    } else {
      assert buckets == l.buckets[rc := sorted];
    }
    r := Success(Ledger(order, buckets));
  }

  // ---------------------------------------------------------------------
  // The user document and its routes

  class User {
    /** The persisted ledger (`req.user.transactions` as last saved). */
    var transactions: Ledger

    constructor ()
      ensures transactions == Empty
    {
      transactions := Empty;
    }

    /** GET /: the ledger rendered with decimals as strings. */
    method List() returns (r: map<Symbol, seq<Document>>)
      ensures r == RenderLedger(transactions)
    {
      r := GetTransactions(transactions);
    }

    /** POST /. The handler works on the loaded document and saves it only
        when the check passes; a rejection leaves the ledger as it was. */
    method Post(req: Request, now: int, freshId: Id) returns (r: Result<Id, Error>)
      modifies this
      ensures r == Response(PostOutcome(old(transactions), req, now, freshId))
      ensures transactions == Persisted(old(transactions), PostOutcome(old(transactions), req, now, freshId))
    {
      var v := Validate(req, now);
      if v.Failure? {
        return Failure(v.error);
      }
      var f := v.value;
      var order, buckets := transactions.order, transactions.buckets;
      var t := NewTransaction(f, freshId);
      if f.crypto in buckets {
        buckets := buckets[f.crypto := buckets[f.crypto] + [t]];
      } else {
        order := order + [f.crypto];
        buckets := buckets[f.crypto := [t]];
      }
      var sorted := SortedCopy(buckets[f.crypto]);
      buckets := buckets[f.crypto := sorted];
      var ok := CheckBalance(sorted);
      if !ok {
        return Failure(TransactionInvalid);
      }
      transactions := Ledger(order, buckets);
      r := Success(sorted[|sorted| - 1].id);
    }

    /** PUT /. */
    method Put(id: Id, req: Request, now: int, freshId: Id) returns (r: Result<Id, Error>)
      modifies this
      ensures r == Response(PutOutcome(old(transactions), id, req, now, freshId))
      ensures transactions == Persisted(old(transactions), PutOutcome(old(transactions), id, req, now, freshId))
    {
      var v := Validate(req, now);
      if v.Failure? {
        return Failure(v.error);
      }
      var f := v.value;
      var found := FindById(transactions, id);
      if found.None? || found.value.crypto == "" {
        return Failure(TransactionNotFound);
      }
      var rc, i := found.value.crypto, found.value.i;
      var order, buckets;
      order, buckets, i := Relocate(transactions, rc, i, f.crypto, NewTransaction(f, freshId));
      var sorted := SortedCopy(buckets[f.crypto]);
      buckets := buckets[f.crypto := sorted];
      var ok := CheckBalance(sorted);
      if !ok {
        return Failure(TransactionInvalid);
      }
      var other := if rc in buckets then buckets[rc] else [];
      var otherSorted := SortedCopy(other);
      if rc in buckets {
        buckets := buckets[rc := otherSorted];
      }
      ok := CheckBalance(otherSorted);
      if !ok {
        return Failure(TransactionInvalid);
      }
      transactions := Ledger(order, buckets);
      r := Success(buckets[f.crypto][i].id);
    }

    /** DELETE /. */
    method Delete(id: Id) returns (r: Result<(), Error>)
      modifies this
      ensures r == Response(DeleteOp(old(transactions), id))
      ensures transactions == Persisted(old(transactions), DeleteOp(old(transactions), id))
    {
      var found := FindById(transactions, id);
      if found.None? || found.value.crypto == "" {
        return Failure(TransactionNotFound);
      }
      var rc, i := found.value.crypto, found.value.i;
      var spliced := SpliceStep(transactions, rc, i);
      if spliced.Failure? {
        return Failure(spliced.error);
      }
      transactions := spliced.value;
      r := Success(());
    }

    /** DELETE /delete/transactions of the account routes. */
    method ClearAll()
      modifies this
      ensures transactions == Empty
    {
      transactions := Empty;
    }
  }
}
