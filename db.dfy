/**
 * db.go: the transaction store. The SQLite database that lives, encrypted, in one file is
 * modelled by its only table `tx`, a sequence of rows; opening decrypts it into a handle,
 * closing seals the handle's rows back into the file. `txCache` is the sorted snapshot of
 * the table that readers see.
 */
module Db {
  import opened Wrappers
  import opened Text
  import opened Dates
  import opened Transactions
  import Util

  /* ---------- ORDER BY date, amount, memo, disambiguation ---------- */

  /** `a` may precede `b` under ORDER BY date, amount, memo, disambiguation. The date column
      holds "2006-01-02" text, whose byte order is calendar order for four-digit years; text
      columns use SQLite's byte-wise BINARY collation. */
  predicate KeyLe(a: Transaction, b: Transaction) {
    || Before(a.date, b.date)
    || (a.date == b.date &&
        (|| a.amount < b.amount
         || (a.amount == b.amount &&
             (|| StrLess(a.memo, b.memo)
              || (a.memo == b.memo &&
                  (StrLess(a.disambiguation, b.disambiguation) || a.disambiguation == b.disambiguation))))))
  }

  /** The four columns the ORDER BY and the UPDATE's WHERE clause look at. */
  predicate SameKey(a: Transaction, b: Transaction) {
    a.date == b.date && a.amount == b.amount && a.memo == b.memo && a.disambiguation == b.disambiguation
  }

  lemma KeyLeTotal(a: Transaction, b: Transaction)
    ensures KeyLe(a, b) || KeyLe(b, a)
  {
    BeforeIsStrictTotalOrder(a.date, b.date, b.date);
    StrLessTotal(a.memo, b.memo);
    StrLessTotal(a.disambiguation, b.disambiguation);
  }

  lemma KeyLeTransitive(a: Transaction, b: Transaction, c: Transaction)
    requires KeyLe(a, b) && KeyLe(b, c)
    ensures KeyLe(a, c)
  {
    BeforeIsStrictTotalOrder(a.date, b.date, c.date);
    if StrLess(a.memo, b.memo) && StrLess(b.memo, c.memo) {
      StrLessTransitive(a.memo, b.memo, c.memo);
    }
    if StrLess(a.disambiguation, b.disambiguation) && StrLess(b.disambiguation, c.disambiguation) {
      StrLessTransitive(a.disambiguation, b.disambiguation, c.disambiguation);
    }
  }

  /** A row that may precede another is not on a later day. */
  lemma KeyLeDates(a: Transaction, b: Transaction)
    requires KeyLe(a, b)
    ensures !Before(b.date, a.date)
  {
    BeforeIsStrictTotalOrder(a.date, b.date, b.date);
  }

  ghost predicate Sorted(s: seq<Transaction>) {
    forall i, j :: 0 <= i < j < |s| ==> KeyLe(s[i], s[j])
  }

  /** The engine's sort, made deterministic; callers only rely on the result being sorted
      and a permutation, since rows with equal keys may come back in any order. */
  function InsertSorted(x: Transaction, s: seq<Transaction>): (r: seq<Transaction>)
    ensures |r| == |s| + 1
    ensures multiset(r) == multiset(s) + multiset{x}
  {
    if s == [] then [x]
    else if KeyLe(x, s[0]) then [x] + s
    else
      assert s == [s[0]] + s[1..];
      [s[0]] + InsertSorted(x, s[1..])
  }

  lemma {:induction false} InsertSortedSorted(x: Transaction, s: seq<Transaction>)
    requires Sorted(s)
    ensures Sorted(InsertSorted(x, s))
  {
    if s == [] {
    } else if KeyLe(x, s[0]) {
      InsertFrontSorted(x, s);
    } else {
      InsertSortedSorted(x, s[1..]);
      InsertInsideSorted(x, s);
    }
  }

  /** A transaction no later than the first goes in front. */
  lemma InsertFrontSorted(x: Transaction, s: seq<Transaction>)
    requires Sorted(s) && s != [] && KeyLe(x, s[0])
    ensures Sorted([x] + s)
  {
    var r := [x] + s;
    forall j | 1 <= j < |r|
      ensures KeyLe(r[0], r[j])
    {
      if j > 1 {
        KeyLeTransitive(x, s[0], s[j - 1]);
      }
    }
  }

  /** A transaction later than the first goes after it, into the sorted rest. */
  lemma InsertInsideSorted(x: Transaction, s: seq<Transaction>)
    requires Sorted(s) && s != [] && !KeyLe(x, s[0])
    requires Sorted(InsertSorted(x, s[1..]))
    ensures Sorted([s[0]] + InsertSorted(x, s[1..]))
  {
    var rest := InsertSorted(x, s[1..]);
    KeyLeTotal(x, s[0]);
    forall j | 0 <= j < |rest|
      ensures KeyLe(s[0], rest[j])
    {
      assert rest[j] in multiset(rest);
      if rest[j] != x {
        assert rest[j] in multiset(s[1..]);
        var m :| 0 <= m < |s[1..]| && s[1..][m] == rest[j];
        assert s[m + 1] == rest[j];
      }
    }
  }

  /** The query's result order. */
  function SortByKey(s: seq<Transaction>): (r: seq<Transaction>)
    ensures |r| == |s|
    ensures multiset(r) == multiset(s)
  {
    if s == [] then []
    else
      assert s == s[..|s| - 1] + [s[|s| - 1]];
      InsertSorted(s[|s| - 1], SortByKey(s[..|s| - 1]))
  }

  lemma {:induction false} SortByKeySorted(s: seq<Transaction>)
    ensures Sorted(SortByKey(s))
  {
    if s != [] {
      SortByKeySorted(s[..|s| - 1]);
      InsertSortedSorted(s[|s| - 1], SortByKey(s[..|s| - 1]));
    }
  }

  /* ---------- UPDATE ---------- */

  /** The WHERE clause of the UPDATE: date, amount, memo and disambiguation equal. */
  predicate Matches(row: Transaction, tx: Transaction) {
    SameKey(row, tx)
  }

  /** Rows affected by `UPDATE tx SET category, ignored, source ... WHERE` the key of `tx`. */
  function MatchCount(rows: seq<Transaction>, tx: Transaction): nat {
    if rows == [] then 0
    else MatchCount(rows[..|rows| - 1], tx) + (if Matches(rows[|rows| - 1], tx) then 1 else 0)
  }

  /** The table after that UPDATE: every matching row takes the category, ignored flag and
      source of `tx`. */
  function SetWhere(rows: seq<Transaction>, tx: Transaction): (r: seq<Transaction>)
    ensures |r| == |rows|
  {
    seq(|rows|, i requires 0 <= i < |rows| =>
      if Matches(rows[i], tx) then rows[i].(category := tx.category, ignored := tx.ignored, source := tx.source)
      else rows[i])
  }

  /** What a batch of writes leaves in the table and what it reports. */
  datatype Written = Written(rows: seq<Transaction>, err: Option<string>)

  /** The loop of `Update`: each transaction must affect exactly one row; the first that does
      not stops the batch with an error naming its Id, after its own UPDATE has run. */
  function UpdateAll(p: Primitives, rows: seq<Transaction>, txs: seq<Transaction>): (w: Written)
    ensures |w.rows| == |rows|
    decreases |txs|
  {
    if txs == [] then Written(rows, None)
    else if MatchCount(rows, txs[0]) != 1 then
      Written(SetWhere(rows, txs[0]), Some("could not update transaction ID " + Id(p, txs[0])))
    else UpdateAll(p, SetWhere(rows, txs[0]), txs[1..])
  }

  /** Updates never touch the key columns, so every row keeps its key and its Id. */
  lemma {:induction false} UpdateKeepsKeys(p: Primitives, rows: seq<Transaction>, txs: seq<Transaction>)
    ensures var w := UpdateAll(p, rows, txs);
            forall i :: 0 <= i < |rows| ==> SameKey(w.rows[i], rows[i]) && Id(p, w.rows[i]) == Id(p, rows[i])
    decreases |txs|
  {
    if txs != [] && MatchCount(rows, txs[0]) == 1 {
      UpdateKeepsKeys(p, SetWhere(rows, txs[0]), txs[1..]);
    }
  }

  /** An error always names the Id of one of the batch's transactions. */
  lemma {:induction false} UpdateErrorNamesId(p: Primitives, rows: seq<Transaction>, txs: seq<Transaction>)
    ensures UpdateAll(p, rows, txs).err.Some? ==>
              exists k :: 0 <= k < |txs| && UpdateAll(p, rows, txs).err == Some("could not update transaction ID " + Id(p, txs[k]))
    decreases |txs|
  {
    if txs != [] && MatchCount(rows, txs[0]) == 1 {
      UpdateErrorNamesId(p, SetWhere(rows, txs[0]), txs[1..]);
      if UpdateAll(p, rows, txs).err.Some? {
        var k :| 0 <= k < |txs[1..]| && UpdateAll(p, rows, txs).err == Some("could not update transaction ID " + Id(p, txs[1..][k]));
        assert txs[1..][k] == txs[k + 1];
      }
    }
  }

  lemma {:induction false} OnlyMatch(rows: seq<Transaction>, tx: Transaction, i: nat)
    requires i < |rows| && Matches(rows[i], tx) && MatchCount(rows, tx) == 1
    ensures forall j :: 0 <= j < |rows| && j != i ==> !Matches(rows[j], tx)
  {
    var n := |rows| - 1;
    assert forall j :: 0 <= j < n ==> rows[..n][j] == rows[j];
    if Matches(rows[n], tx) {
      NoMatch(rows[..n], tx);
    } else {
      OnlyMatch(rows[..n], tx, i);
    }
  }

  lemma {:induction false} NoMatch(rows: seq<Transaction>, tx: Transaction)
    requires MatchCount(rows, tx) == 0
    ensures forall j :: 0 <= j < |rows| ==> !Matches(rows[j], tx)
  {
    if rows != [] {
      NoMatch(rows[..|rows| - 1], tx);
    }
  }

  /** Updating with a transaction that matches exactly the row at `i` succeeds and turns that
      row into the transaction itself, leaving every other row as it was. */
  lemma UpdateOneRow(p: Primitives, rows: seq<Transaction>, tx: Transaction, i: nat)
    requires i < |rows| && Matches(rows[i], tx) && MatchCount(rows, tx) == 1
    ensures UpdateAll(p, rows, [tx]) == Written(rows[i := tx], None)
  {
    OnlyMatch(rows, tx, i);
    assert SetWhere(rows, tx) == rows[i := tx];
  }

  /** A transaction no row matches makes the batch fail, with the table untouched. */
  lemma UpdateMissingRowFails(p: Primitives, rows: seq<Transaction>, tx: Transaction, more: seq<Transaction>)
    requires MatchCount(rows, tx) == 0
    ensures UpdateAll(p, rows, [tx] + more) == Written(rows, Some("could not update transaction ID " + Id(p, tx)))
  {
    NoMatch(rows, tx);
    assert SetWhere(rows, tx) == rows;
  }

  /* ---------- INSERT ---------- */

  /** The Ids of a list of transactions. */
  ghost function Ids(p: Primitives, rows: seq<Transaction>): set<string> {
    set t | t in rows :: Id(p, t)
  }

  /** The loop of `Insert`: the batch's transactions whose Id is not in `ids` (the table's Ids
      read before the loop), in batch order. The batch is not checked against itself. */
  function NewOnes(p: Primitives, batch: seq<Transaction>, ids: set<string>): (r: seq<Transaction>)
    ensures |r| <= |batch|
  {
    if batch == [] then []
    else
      var n := |batch| - 1;
      NewOnes(p, batch[..n], ids) + (if Id(p, batch[n]) in ids then [] else [batch[n]])
  }

  lemma NewOnesStep(p: Primitives, batch: seq<Transaction>, k: nat, ids: set<string>)
    requires k < |batch|
    ensures NewOnes(p, batch[..k + 1], ids) == NewOnes(p, batch[..k], ids) + (if Id(p, batch[k]) in ids then [] else [batch[k]])
  {
    assert batch[..k + 1][..k] == batch[..k];
  }

  /** Exactly the transactions of the batch with an unknown Id are inserted. */
  lemma {:induction false} NewOnesExactly(p: Primitives, batch: seq<Transaction>, ids: set<string>)
    ensures forall t :: t in NewOnes(p, batch, ids) <==> t in batch && Id(p, t) !in ids
  {
    if batch != [] {
      var n := |batch| - 1;
      NewOnesExactly(p, batch[..n], ids);
      assert batch == batch[..n] + [batch[n]];
    }
  }

  /** Re-inserting transactions that are all already stored leaves the table as it is; in
      particular inserting the stored rows again adds nothing. */
  lemma ReinsertIsNoop(p: Primitives, rows: seq<Transaction>, batch: seq<Transaction>)
    requires forall t :: t in batch ==> t in rows
    ensures rows + NewOnes(p, batch, Ids(p, rows)) == rows
  {
    NewOnesExactly(p, batch, Ids(p, rows));
  }

  /** The same new transaction twice in one batch is stored twice, and then no single UPDATE
      can target it: each one affects both rows. */
  lemma BatchDuplicatesKept(p: Primitives, rows: seq<Transaction>, t: Transaction)
    requires Id(p, t) !in Ids(p, rows)
    ensures NewOnes(p, [t, t], Ids(p, rows)) == [t, t]
    ensures MatchCount(rows + [t, t], t) >= 2
    ensures UpdateAll(p, rows + [t, t], [t]).err == Some("could not update transaction ID " + Id(p, t))
  {
    assert [t, t][..1] == [t];
    var s := rows + [t, t];
    assert s[..|s| - 1] == rows + [t];
    assert (rows + [t])[..|rows|] == rows;
  }

  /* ---------- The database handle ---------- */

  /** `PennyDbHandle`: an open database, reduced to its table names and the rows of `tx`. */
  class PennyDbHandle {
    var tables: seq<string>
    var rows: seq<Transaction>

    constructor (tables: seq<string>, rows: seq<Transaction>)
      ensures this.tables == tables && this.rows == rows
    {
      this.tables := tables;
      this.rows := rows;
    }

    /** `handle.Setup()`: create the empty `tx` table unless a table of that name exists. */
    method Setup()
      modifies this
      ensures "tx" in tables
      ensures old("tx" in tables) ==> tables == old(tables) && rows == old(rows)
      ensures old("tx" !in tables) ==> tables == old(tables) + ["tx"] && rows == []
    {
      var found := Util.Contains("tx", tables);
      if !found {
        tables := tables + ["tx"];
        rows := [];
      }
    }

    /** `handle.AllTransactions()`: every row of `tx`, ordered by date, amount, memo and
        disambiguation; rows with equal keys come in an order the model leaves open. */
    method AllTransactions() returns (transactions: seq<Transaction>)
      ensures Sorted(transactions)
      ensures multiset(transactions) == multiset(rows)
    {
      var result := SortByKey(rows);
      SortByKeySorted(rows);
      transactions := [];
      for k := 0 to |result|
        invariant transactions == result[..k]
      {
        transactions := transactions + [result[k]];
      }
      assert result[..|result|] == result;
    }

    /** The UPDATE statement of `Update`, with its affected-row count. */
    method ExecUpdate(tx: Transaction) returns (affected: nat)
      modifies this
      ensures rows == SetWhere(old(rows), tx) && tables == old(tables)
      ensures affected == MatchCount(old(rows), tx)
    {
      affected := MatchCount(rows, tx);
      rows := SetWhere(rows, tx);
    }

    /** The loop of `Insert`: skip each transaction whose Id is a key of `transactionFromId`,
        insert the others one by one, and stop with an error should an INSERT not affect
        exactly one row. */
    method InsertAbsent(p: Primitives, transactions: seq<Transaction>, transactionFromId: map<string, Transaction>)
      returns (err: Option<string>)
      modifies this
      ensures err == None
      ensures rows == old(rows) + NewOnes(p, transactions, transactionFromId.Keys)
    {
      for k := 0 to |transactions|
        invariant rows == old(rows) + NewOnes(p, transactions[..k], transactionFromId.Keys)
      {
        var tx := transactions[k];
        NewOnesStep(p, transactions, k, transactionFromId.Keys);
        if Id(p, tx) in transactionFromId {
          continue;
        }
        var affected := ExecInsert(tx);
        assert rows == old(rows) + (NewOnes(p, transactions[..k], transactionFromId.Keys) + [tx]);
        if affected != 1 {
          return Some("could not insert into 'tx' table");
        }
      }
      assert transactions[..|transactions|] == transactions;
      return None;
    }

    /** The INSERT statement of `Insert`, which adds one row. */
    method ExecInsert(tx: Transaction) returns (affected: nat)
      modifies this
      ensures rows == old(rows) + [tx] && tables == old(tables)
      ensures affected == 1
    {
      rows := rows + [tx];
      affected := 1;
    }
  }

  /* ---------- The store ---------- */

  /** `PennyDb`. `file` is the `tx` table as last sealed into the encrypted file (None while
      no file exists); `txCache` is the snapshot that readers see. */
  class PennyDb {
    const prims: Primitives
    const secretKey: seq<bv8>
    var file: Option<seq<Transaction>>
    var txCache: seq<Transaction>

    ghost predicate Valid()
      reads this
    {
      |secretKey| == 32 && Sorted(txCache)
    }

    /** The rows a freshly opened handle sees. */
    function StoredRows(): seq<Transaction>
      reads this
    {
      if file.Some? then file.value else []
    }

    constructor (file: Option<seq<Transaction>>, secretKey: seq<bv8>, prims: Primitives)
      ensures this.file == file && this.secretKey == secretKey && this.prims == prims
      ensures txCache == []
    {
      this.file := file;
      this.secretKey := secretKey;
      this.prims := prims;
      txCache := [];
    }

    /** `pdb.Open()`: decrypt the file into a handle, or set up a new database when there is
        no file yet. */
    method Open() returns (handle: PennyDbHandle)
      ensures fresh(handle)
      ensures "tx" in handle.tables
      ensures handle.rows == StoredRows()
    {
      if file.None? {
        handle := new PennyDbHandle([], []);
        handle.Setup();
      } else {
        handle := new PennyDbHandle(["tx"], file.value);
      }
    }

    /** `handle.Close()`: seal the handle's rows into the file. */
    method Close(handle: PennyDbHandle)
      modifies this
      ensures file == Some(handle.rows)
      ensures txCache == old(txCache)
    {
      file := Some(handle.rows);
    }

    /** `pdb.AllTransactions()`: the snapshot, which is sorted. */
    method AllTransactions() returns (txs: seq<Transaction>)
      requires Valid()
      ensures txs == txCache
      ensures Sorted(txs)
    {
      txs := txCache;
    }

    /** `pdb.Start()`: the first snapshot day, no later than any other. The Go code indexes
        an empty cache and panics, so the cache must be non-empty. */
    method Start() returns (d: Date)
      requires Valid() && |txCache| > 0
      ensures d == txCache[0].date
      ensures forall t :: t in txCache ==> !Before(t.date, d)
    {
      d := txCache[0].date;
      forall t | t in txCache
        ensures !Before(t.date, d)
      {
        var j :| 0 <= j < |txCache| && txCache[j] == t;
        if j > 0 {
          KeyLeDates(txCache[0], txCache[j]);
        }
      }
    }

    /** `pdb.End()`: the last snapshot day, no earlier than any other. */
    method End() returns (d: Date)
      requires Valid() && |txCache| > 0
      ensures d == txCache[|txCache| - 1].date
      ensures forall t :: t in txCache ==> !Before(d, t.date)
    {
      d := txCache[|txCache| - 1].date;
      forall t | t in txCache
        ensures !Before(d, t.date)
      {
        var j :| 0 <= j < |txCache| && txCache[j] == t;
        if j < |txCache| - 1 {
          KeyLeDates(txCache[j], txCache[|txCache| - 1]);
        }
      }
    }

    /** `pdb.Slice(start, end, regex, categories)`: the snapshot's transactions that pass the
        category, regex and inclusive date filters, in snapshot order. */
    method Slice(start: Date, end: Date, regex: Option<string -> bool>, categories: seq<string>)
      returns (sliceTxs: seq<Transaction>)
      ensures sliceTxs == SliceOf(prims, txCache, start, end, regex, categories)
    {
      sliceTxs := [];
      for k := 0 to |txCache|
        invariant sliceTxs == SliceOf(prims, txCache[..k], start, end, regex, categories)
      {
        var tx := txCache[k];
        SliceStep(prims, txCache, k, start, end, regex, categories);
        if |categories| > 0 {
          var found := Listed(tx, categories);
          if !found {
            continue;
          }
        }
        if regex.Some? && !regex.value(Join(TableRow(prims, tx), " ")) {
          continue;
        }
        if tx.date == start || tx.date == end || (Before(start, tx.date) && Before(tx.date, end)) {
          sliceTxs := sliceTxs + [tx];
        }
      }
      assert txCache[..|txCache|] == txCache;
    }

    /** `pdb.Update(transactions)`. The UPDATEs run one by one on an opened handle and the
        deferred close seals the table whatever happens, so a failing batch leaves the
        earlier UPDATEs (and its own) in the file; the snapshot is re-read only when every
        transaction affected exactly one row. */
    method Update(transactions: seq<Transaction>) returns (err: Option<string>)
      requires Valid()
      modifies this
      ensures Valid()
      ensures var w := UpdateAll(prims, old(StoredRows()), transactions);
              && file == Some(w.rows)
              && err == w.err
              && (err.None? ==> multiset(txCache) == multiset(w.rows))
              && (err.Some? ==> txCache == old(txCache))
    {
      var handle := Open();
      for k := 0 to |transactions|
        invariant fresh(handle)
        invariant file == old(file) && txCache == old(txCache)
        invariant UpdateAll(prims, old(StoredRows()), transactions) == UpdateAll(prims, handle.rows, transactions[k..])
      {
        var tx := transactions[k];
        assert transactions[k..][1..] == transactions[k + 1..];
        var affected := handle.ExecUpdate(tx);
        if affected != 1 {
          err := Some("could not update transaction ID " + Id(prims, tx));
          Close(handle);
          return;
        }
      }
      txCache := handle.AllTransactions();
      err := None;
      Close(handle);
    }

    /** `pdb.Insert(transactions)`: insert every transaction whose Id is not already in the
        table as read before the loop, then re-read the snapshot. */
    method Insert(transactions: seq<Transaction>) returns (err: Option<string>)
      requires Valid()
      modifies this
      ensures Valid()
      ensures err == None
      ensures file == Some(old(StoredRows()) + NewOnes(prims, transactions, Ids(prims, old(StoredRows()))))
      ensures multiset(txCache) == multiset(file.value)
    {
      var handle := Open();
      var currentTransactions := handle.AllTransactions();
      var transactionFromId := IndexById(prims, currentTransactions);
      SameElementsSameIds(prims, currentTransactions, handle.rows);
      err := handle.InsertAbsent(prims, transactions, transactionFromId);
      txCache := handle.AllTransactions();
      Close(handle);
    }

    /** `pdb.SaveEditTsv(contents)` after the CSV has been read into records of at least six
        fields: apply each record's category (field 5) and ignored flag (field 4 is "true")
        to the cached transaction with the record's Id (field 0), remember the ones that
        changed, then `Update` them. Cached transactions are edited in place, so the edits
        stay in the snapshot even when the update fails, and a transaction edited twice is
        sent with its last values each time. */
    method SaveEditTsv(records: seq<seq<string>>) returns (err: Option<string>)
      requires Valid()
      requires forall r :: r in records ==> |r| >= 6
      modifies this
      ensures Valid()
      ensures var e := ApplyEdits(IdIndex(prims, old(txCache)), old(txCache), records);
              var w := UpdateAll(prims, old(StoredRows()), Resolve(e));
              && file == Some(w.rows)
              && err == w.err
              && (err.None? ==> multiset(txCache) == multiset(w.rows))
              && (err.Some? ==> txCache == e.cache)
    {
      var txs := IndexPositions(prims, txCache);
      var changed := EditCache(txs, records);
      EditsKeepKeys(txs, old(txCache), records);
      err := Update(Resolve(Edit(txCache, changed)));
    }

    /** The record loop of `SaveEditTsv`: each record whose Id is in `txs` and whose category
        or ignored flag differs edits the cached transaction at that position and queues it. */
    method EditCache(txs: map<string, nat>, records: seq<seq<string>>) returns (changed: seq<nat>)
      requires forall k :: k in txs ==> txs[k] < |txCache|
      requires forall r :: r in records ==> |r| >= 6
      modifies this
      ensures Edit(txCache, changed) == ApplyEdits(txs, old(txCache), records)
      ensures file == old(file)
    {
      changed := [];
      for k := 0 to |records|
        invariant ApplyEdits(txs, old(txCache), records[..k]) == Edit(txCache, changed)
        invariant file == old(file)
      {
        ApplyEditsStep(txs, old(txCache), records, k);
        var record := records[k];
        var id := record[0];
        var ignore := false;
        if record[4] == "true" {
          ignore := true;
        }
        var category := record[5];
        if id in txs {
          var tx := txCache[txs[id]];
          var isChanged := tx.category != category || tx.ignored != ignore;
          if isChanged {
            txCache := txCache[txs[id] := tx.(category := category, ignored := ignore)];
            changed := changed + [txs[id]];
          }
        }
      }
      assert records[..|records|] == records;
    }
  }

  /** The `txs` map of `SaveEditTsv`: each Id of the snapshot to its position. */
  method IndexPositions(p: Primitives, cache: seq<Transaction>) returns (txs: map<string, nat>)
    ensures txs == IdIndex(p, cache)
  {
    txs := map[];
    for k := 0 to |cache|
      invariant txs == IdIndex(p, cache[..k])
    {
      assert cache[..k + 1][..k] == cache[..k];
      txs := txs[Id(p, cache[k]) := k];
    }
    assert cache[..|cache|] == cache;
  }

  /** `NewPennyDb(path, log, secretKey)`: refuse any key that is not 32 bytes before touching
      the store; otherwise open it (creating the table when there is no file), take the
      sorted snapshot and seal the table again. */
  method NewPennyDb(file: Option<seq<Transaction>>, secretKey: seq<bv8>, prims: Primitives) returns (r: Result<PennyDb>)
    ensures |secretKey| != 32 ==> r == Err("Expecting a secret key length of 32 bytes")
    ensures |secretKey| == 32 ==>
              && r.Ok? && fresh(r.value) && r.value.Valid()
              && r.value.file == Some(if file.Some? then file.value else [])
              && multiset(r.value.txCache) == multiset(r.value.file.value)
  {
    if |secretKey| != 32 {
      return Err("Expecting a secret key length of 32 bytes");
    }
    var pdb := new PennyDb(file, secretKey, prims);
    var handle := pdb.Open();
    pdb.txCache := handle.AllTransactions();
    pdb.Close(handle);
    return Ok(pdb);
  }

  /** The `transactionFromId` map of `Insert`: every Id of `txs` to a transaction carrying
      it (the last one). */
  method IndexById(p: Primitives, txs: seq<Transaction>) returns (transactionFromId: map<string, Transaction>)
    ensures transactionFromId.Keys == Ids(p, txs)
    ensures forall id :: id in transactionFromId ==> transactionFromId[id] in txs && Id(p, transactionFromId[id]) == id
  {
    transactionFromId := map[];
    for k := 0 to |txs|
      invariant transactionFromId.Keys == Ids(p, txs[..k])
      invariant forall id :: id in transactionFromId ==> transactionFromId[id] in txs[..k] && Id(p, transactionFromId[id]) == id
    {
      assert txs[..k + 1] == txs[..k] + [txs[k]];
      transactionFromId := transactionFromId[Id(p, txs[k]) := txs[k]];
    }
    assert txs[..|txs|] == txs;
  }

  lemma SameElementsSameIds(p: Primitives, a: seq<Transaction>, b: seq<Transaction>)
    requires multiset(a) == multiset(b)
    ensures Ids(p, a) == Ids(p, b)
  {
    forall t | t in a ensures t in b {
      assert t in multiset(a);
    }
    forall t | t in b ensures t in a {
      assert t in multiset(b);
    }
  }

  /* ---------- Slice ---------- */

  /** One listed category admits a transaction: same category, or the "uncategorized"
      sentinel and an empty category. */
  predicate CategoryHit(tx: Transaction, c: string) {
    tx.category == c || (c == "uncategorized" && tx.category == "")
  }

  /** The inclusive date filter of `Slice`. */
  predicate InRange(d: Date, start: Date, end: Date) {
    d == start || d == end || (Before(start, d) && Before(d, end))
  }

  /** The three filters of `Slice`; an empty category list and a nil regex filter nothing. */
  predicate Selected(p: Primitives, tx: Transaction, start: Date, end: Date, regex: Option<string -> bool>, categories: seq<string>) {
    && (categories == [] || exists i :: 0 <= i < |categories| && CategoryHit(tx, categories[i]))
    && (regex.None? || regex.value(Join(TableRow(p, tx), " ")))
    && InRange(tx.date, start, end)
  }

  function SliceOf(p: Primitives, txs: seq<Transaction>, start: Date, end: Date, regex: Option<string -> bool>, categories: seq<string>): seq<Transaction> {
    if txs == [] then []
    else
      var n := |txs| - 1;
      SliceOf(p, txs[..n], start, end, regex, categories)
        + (if Selected(p, txs[n], start, end, regex, categories) then [txs[n]] else [])
  }

  /** The category scan inside `Slice`'s loop. */
  method Listed(tx: Transaction, categories: seq<string>) returns (found: bool)
    ensures found <==> exists i :: 0 <= i < |categories| && CategoryHit(tx, categories[i])
  {
    found := false;
    for j := 0 to |categories|
      invariant found <==> exists i :: 0 <= i < j && CategoryHit(tx, categories[i])
    {
      var category := categories[j];
      if tx.category == category || (category == "uncategorized" && |tx.category| == 0) {
        found := true;
      }
    }
  }

  /** One more transaction extends the slice by itself when it is selected. */
  lemma SliceStep(p: Primitives, txs: seq<Transaction>, k: int, start: Date, end: Date, regex: Option<string -> bool>, categories: seq<string>)
    requires 0 <= k < |txs|
    ensures SliceOf(p, txs[..k + 1], start, end, regex, categories)
            == SliceOf(p, txs[..k], start, end, regex, categories)
               + (if Selected(p, txs[k], start, end, regex, categories) then [txs[k]] else [])
  {
    assert txs[..k + 1][..k] == txs[..k];
  }

  /** A non-empty category list keeps exactly the transactions whose category is listed, plus
      the uncategorized ones when the sentinel is listed. */
  lemma CategoryFilter(tx: Transaction, categories: seq<string>)
    requires categories != []
    ensures (exists i :: 0 <= i < |categories| && CategoryHit(tx, categories[i])) <==>
              tx.category in categories || ("uncategorized" in categories && tx.category == "")
  {
  }

  /** With start no later than end, the date filter is the closed interval [start, end]; with
      end before start only the two end days themselves pass. */
  lemma DateFilterInclusive(d: Date, start: Date, end: Date)
    ensures !Before(end, start) ==> (InRange(d, start, end) <==> !Before(d, start) && !Before(end, d))
    ensures Before(end, start) ==> (InRange(d, start, end) <==> d == start || d == end)
  {
    BeforeIsStrictTotalOrder(start, d, end);
    BeforeIsStrictTotalOrder(d, start, end);
    BeforeIsStrictTotalOrder(end, d, start);
    BeforeIsStrictTotalOrder(start, end, d);
  }

  /** `a` is `b` with some elements left out, order kept. */
  predicate IsSubsequence(a: seq<Transaction>, b: seq<Transaction>) {
    if a == [] then true
    else if b == [] then false
    else if a[|a| - 1] == b[|b| - 1] then IsSubsequence(a[..|a| - 1], b[..|b| - 1])
    else IsSubsequence(a, b[..|b| - 1])
  }

  /** The slice is a subsequence of the snapshot and holds exactly its selected elements. */
  lemma {:induction false} SliceIsSubsequence(p: Primitives, txs: seq<Transaction>, start: Date, end: Date, regex: Option<string -> bool>, categories: seq<string>)
    ensures IsSubsequence(SliceOf(p, txs, start, end, regex, categories), txs)
    ensures forall t :: t in SliceOf(p, txs, start, end, regex, categories) <==>
              t in txs && Selected(p, t, start, end, regex, categories)
  {
    if txs != [] {
      var n := |txs| - 1;
      var s := SliceOf(p, txs[..n], start, end, regex, categories);
      SliceIsSubsequence(p, txs[..n], start, end, regex, categories);
      assert txs == txs[..n] + [txs[n]];
      if !Selected(p, txs[n], start, end, regex, categories) {
        assert SliceOf(p, txs, start, end, regex, categories) == s;
        SubsequenceExtend(s, txs[..n], txs[n]);
      } else {
        assert (s + [txs[n]])[..|s|] == s;
      }
    }
  }

  lemma {:induction false} SubsequenceExtend(a: seq<Transaction>, b: seq<Transaction>, x: Transaction)
    requires IsSubsequence(a, b)
    ensures IsSubsequence(a, b + [x])
    decreases |b|, 1
  {
    assert (b + [x])[..|b|] == b;
    if a != [] && a[|a| - 1] == x {
      SubsequenceDrop(a, b);
    }
  }

  lemma {:induction false} SubsequenceDrop(a: seq<Transaction>, b: seq<Transaction>)
    requires a != [] && IsSubsequence(a, b)
    ensures IsSubsequence(a[..|a| - 1], b)
    decreases |b|, 0
  {
    var m := |b| - 1;
    assert b[..m] + [b[m]] == b;
    if a[|a| - 1] != b[m] {
      SubsequenceDrop(a, b[..m]);
    }
    SubsequenceExtend(a[..|a| - 1], b[..m], b[m]);
  }

  /** A subsequence of a sorted list is sorted, so every slice of the snapshot is sorted. */
  lemma SliceIsSorted(p: Primitives, txs: seq<Transaction>, start: Date, end: Date, regex: Option<string -> bool>, categories: seq<string>)
    requires Sorted(txs)
    ensures Sorted(SliceOf(p, txs, start, end, regex, categories))
  {
    SliceIsSubsequence(p, txs, start, end, regex, categories);
    SubsequenceSorted(SliceOf(p, txs, start, end, regex, categories), txs);
  }


  lemma {:induction false} SubsequenceSorted(a: seq<Transaction>, b: seq<Transaction>)
    requires IsSubsequence(a, b) && Sorted(b)
    ensures Sorted(a)
  {
    if a != [] {
      var n, m := |a| - 1, |b| - 1;
      if a[n] == b[m] {
        SubsequenceSorted(a[..n], b[..m]);
        SubsequenceMembers(a[..n], b[..m]);
        forall i | 0 <= i < n
          ensures KeyLe(a[i], a[n])
        {
          assert a[..n][i] == a[i];
          assert a[i] in a[..n];
          assert a[i] in b[..m];
          var k :| 0 <= k < m && b[..m][k] == a[i];
        }
      } else {
        SubsequenceSorted(a, b[..m]);
      }
    }
  }

  lemma {:induction false} SubsequenceMembers(a: seq<Transaction>, b: seq<Transaction>)
    requires IsSubsequence(a, b)
    ensures forall t :: t in a ==> t in b
  {
    if a != [] {
      var n, m := |a| - 1, |b| - 1;
      if a[n] == b[m] {
        SubsequenceMembers(a[..n], b[..m]);
        assert a == a[..n] + [a[n]];
      } else {
        SubsequenceMembers(a, b[..m]);
      }
    }
  }

  lemma KeyLeReflexive(a: Transaction)
    ensures KeyLe(a, a)
  {
  }

  /* ---------- SaveEditTsv ---------- */

  /** The `txs` map of `SaveEditTsv`: each Id of the snapshot to the position of the last
      cached transaction carrying it. */
  function IdIndex(p: Primitives, cache: seq<Transaction>): (m: map<string, nat>)
    ensures forall k :: k in m ==> m[k] < |cache|
  {
    if cache == [] then map[]
    else
      var n := |cache| - 1;
      IdIndex(p, cache[..n])[Id(p, cache[n]) := n]
  }

  lemma {:induction false} IdIndexInRange(p: Primitives, cache: seq<Transaction>)
    ensures forall k :: k in IdIndex(p, cache) ==> IdIndex(p, cache)[k] < |cache| && Id(p, cache[IdIndex(p, cache)[k]]) == k
    ensures forall i :: 0 <= i < |cache| ==> Id(p, cache[i]) in IdIndex(p, cache)
  {
    if cache != [] {
      var n := |cache| - 1;
      IdIndexInRange(p, cache[..n]);
    }
  }

  /** With distinct Ids every cached transaction is found at its own position. */
  lemma {:induction false} IdIndexFindsEach(p: Primitives, cache: seq<Transaction>, i: nat)
    requires forall a, b :: 0 <= a < b < |cache| ==> Id(p, cache[a]) != Id(p, cache[b])
    requires i < |cache|
    ensures Id(p, cache[i]) in IdIndex(p, cache) && IdIndex(p, cache)[Id(p, cache[i])] == i
  {
    IdIndexInRange(p, cache);
    var k := IdIndex(p, cache)[Id(p, cache[i])];
    assert Id(p, cache[k]) == Id(p, cache[i]);
  }

  /** The snapshot after the edit loop, and the positions it queued as changed. */
  datatype Edit = Edit(cache: seq<Transaction>, changed: seq<nat>)

  /** The edit loop of `SaveEditTsv`: a record whose Id is known and whose category or
      ignored flag differs from the cached transaction's edits that transaction and queues its
      position; any other record (unknown Id, or nothing different) changes nothing. */
  function ApplyEdits(idx: map<string, nat>, cache: seq<Transaction>, records: seq<seq<string>>): (e: Edit)
    requires forall k :: k in idx ==> idx[k] < |cache|
    requires forall r :: r in records ==> |r| >= 6
    ensures |e.cache| == |cache|
    ensures forall j :: 0 <= j < |e.changed| ==> e.changed[j] < |cache|
  {
    if records == [] then Edit(cache, [])
    else
      var n := |records| - 1;
      var e := ApplyEdits(idx, cache, records[..n]);
      var r := records[n];
      var ignore := r[4] == "true";
      if r[0] in idx && (e.cache[idx[r[0]]].category != r[5] || e.cache[idx[r[0]]].ignored != ignore) then
        var i := idx[r[0]];
        Edit(e.cache[i := e.cache[i].(category := r[5], ignored := ignore)], e.changed + [i])
      else e
  }

  /** One more record of the edit loop. */
  lemma ApplyEditsStep(idx: map<string, nat>, cache: seq<Transaction>, records: seq<seq<string>>, k: nat)
    requires forall k :: k in idx ==> idx[k] < |cache|
    requires forall r :: r in records ==> |r| >= 6
    requires k < |records|
    ensures var e := ApplyEdits(idx, cache, records[..k]);
            var r := records[k];
            var ignore := r[4] == "true";
            ApplyEdits(idx, cache, records[..k + 1])
            == if r[0] in idx && (e.cache[idx[r[0]]].category != r[5] || e.cache[idx[r[0]]].ignored != ignore) then
                 Edit(e.cache[idx[r[0]] := e.cache[idx[r[0]]].(category := r[5], ignored := ignore)], e.changed + [idx[r[0]]])
               else e
  {
    assert records[..k + 1][..k] == records[..k];
  }

  /** The transactions handed to `Update`: the queued positions read after the loop, as the
      queued pointers are. */
  function Resolve(e: Edit): seq<Transaction>
    requires forall j :: 0 <= j < |e.changed| ==> e.changed[j] < |e.cache|
  {
    seq(|e.changed|, j requires 0 <= j < |e.changed| => e.cache[e.changed[j]])
  }

  /** Edits change only categories and ignored flags: keys, and so the snapshot's order, stay. */
  lemma {:induction false} EditsKeepKeys(idx: map<string, nat>, cache: seq<Transaction>, records: seq<seq<string>>)
    requires forall k :: k in idx ==> idx[k] < |cache|
    requires forall r :: r in records ==> |r| >= 6
    ensures var e := ApplyEdits(idx, cache, records);
            && (forall i :: 0 <= i < |cache| ==> SameKey(e.cache[i], cache[i]) && e.cache[i].source == cache[i].source)
            && (Sorted(cache) ==> Sorted(e.cache))
  {
    if records != [] {
      EditsKeepKeys(idx, cache, records[..|records| - 1]);
    }
  }

  /** Feeding `GetEditTsv`'s export of any part of the snapshot back unedited changes
      nothing and queues nothing, provided the snapshot's Ids are distinct. */
  lemma {:induction false} ExportedEditsChangeNothing(p: Primitives, cache: seq<Transaction>, exported: seq<Transaction>, records: seq<seq<string>>)
    requires forall a, b :: 0 <= a < b < |cache| ==> Id(p, cache[a]) != Id(p, cache[b])
    requires forall t :: t in exported ==> t in cache
    requires |records| == |exported|
    requires forall k :: 0 <= k < |exported| ==> records[k] == EditRecord(p, exported[k])
    ensures forall r :: r in records ==> |r| >= 6
    ensures ApplyEdits(IdIndex(p, cache), cache, records) == Edit(cache, [])
  {
    if records != [] {
      var n := |records| - 1;
      ExportedEditsChangeNothing(p, cache, exported[..n], records[..n]);
      var t := exported[n];
      assert t in exported;
      var i :| 0 <= i < |cache| && cache[i] == t;
      IdIndexFindsEach(p, cache, i);
      var r := records[n];
      assert r == EditRecord(p, t);
      var idx := IdIndex(p, cache);
      assert r[0] in idx && cache[idx[r[0]]] == t;
      assert t.category == r[5] && t.ignored == (r[4] == "true");
      assert forall x :: x in records ==> |x| >= 6 by {
        forall x | x in records
          ensures |x| >= 6
        {
          var k :| 0 <= k < |records| && records[k] == x;
          assert records[k] == EditRecord(p, exported[k]);
        }
      }
    }
  }

  /** A record that agrees with the transaction its Id finds, or whose Id is unknown, leaves
      the edit loop where it was. */
  lemma QuietStep(idx: map<string, nat>, cache: seq<Transaction>, records: seq<seq<string>>, k: nat, e: Edit)
    requires forall k :: k in idx ==> idx[k] < |cache|
    requires forall r :: r in records ==> |r| >= 6
    requires k < |records| && ApplyEdits(idx, cache, records[..k]) == e
    requires records[k][0] in idx ==>
               && e.cache[idx[records[k][0]]].category == records[k][5]
               && e.cache[idx[records[k][0]]].ignored == (records[k][4] == "true")
    ensures ApplyEdits(idx, cache, records[..k + 1]) == e
  {
    ApplyEditsStep(idx, cache, records, k);
  }

  /** The export of the whole snapshot in which row i alone carries category c and ignored
      flag b in place of its own: these are the records `SaveEditTsv` reads back. */
  predicate OneRowEdited(p: Primitives, cache: seq<Transaction>, records: seq<seq<string>>, i: nat, c: string, b: bool) {
    && |records| == |cache| && i < |cache|
    && (forall k :: 0 <= k < |records| && k != i ==> records[k] == EditRecord(p, cache[k]))
    && |records[i]| >= 6 && records[i][0] == Id(p, cache[i]) && records[i][5] == c
    && (records[i][4] == "true" <==> b)
  }

  /** Record k finds position k, and the transaction there already has its category and
      ignored flag. */
  predicate Agrees(idx: map<string, nat>, e: Edit, records: seq<seq<string>>, k: int) {
    && 0 <= k < |records| && |records[k]| >= 6 && k < |e.cache|
    && records[k][0] in idx && idx[records[k][0]] == k
    && e.cache[k].category == records[k][5] && e.cache[k].ignored == (records[k][4] == "true")
  }

  /** Records m to n that each find their own position and agree with the transaction there
      leave the edit loop where record m found it. */
  lemma {:induction false} QuietRecords(idx: map<string, nat>, cache: seq<Transaction>, records: seq<seq<string>>, e: Edit, m: nat, n: nat)
    requires forall k :: k in idx ==> idx[k] < |cache|
    requires forall r :: r in records ==> |r| >= 6
    requires m <= n <= |records| && |e.cache| == |cache|
    requires ApplyEdits(idx, cache, records[..m]) == e
    requires forall k :: m <= k < n ==> Agrees(idx, e, records, k)
    ensures ApplyEdits(idx, cache, records[..n]) == e
  {
    if n > m {
      QuietRecords(idx, cache, records, e, m, n - 1);
      assert Agrees(idx, e, records, n - 1);
      QuietStep(idx, cache, records, n - 1, e);
    }
  }

  /** The whole edit loop, when record k finds position k and only record i differs from the
      transaction it finds: exactly that transaction is edited and queued once. */
  lemma OneRowEditLoop(idx: map<string, nat>, cache: seq<Transaction>, records: seq<seq<string>>, i: nat, c: string, b: bool)
    requires forall k :: k in idx ==> idx[k] < |cache|
    requires forall r :: r in records ==> |r| >= 6
    requires |records| == |cache| && i < |cache|
    requires forall k :: 0 <= k < |records| ==> records[k][0] in idx && idx[records[k][0]] == k
    requires forall k :: 0 <= k < |records| && k != i ==>
               records[k][5] == cache[k].category && (records[k][4] == "true") == cache[k].ignored
    requires records[i][5] == c && (records[i][4] == "true") == b
    requires c != cache[i].category || b != cache[i].ignored
    ensures ApplyEdits(idx, cache, records) == Edit(cache[i := cache[i].(category := c, ignored := b)], [i])
  {
    var edited := Edit(cache[i := cache[i].(category := c, ignored := b)], [i]);
    assert records[..0] == [];
    forall k | 0 <= k < i
      ensures Agrees(idx, Edit(cache, []), records, k)
    {
    }
    QuietRecords(idx, cache, records, Edit(cache, []), 0, i);
    ApplyEditsStep(idx, cache, records, i);
    assert ApplyEdits(idx, cache, records[..i + 1]) == edited;
    forall k | i < k < |records|
      ensures Agrees(idx, edited, records, k)
    {
    }
    QuietRecords(idx, cache, records, edited, i + 1, |records|);
    assert records[..|records|] == records;
  }

  /** What a one-row edit gives the edit loop: records of six fields, each finding its own
      position, and agreeing with it everywhere but row i. */
  lemma OneRowFacts(p: Primitives, cache: seq<Transaction>, records: seq<seq<string>>, i: nat, c: string, b: bool)
    requires forall a, b :: 0 <= a < b < |cache| ==> Id(p, cache[a]) != Id(p, cache[b])
    requires OneRowEdited(p, cache, records, i, c, b)
    ensures forall r :: r in records ==> |r| >= 6
    ensures forall k :: 0 <= k < |records| ==> records[k][0] in IdIndex(p, cache) && IdIndex(p, cache)[records[k][0]] == k
    ensures forall k :: 0 <= k < |records| && k != i ==>
              records[k][5] == cache[k].category && (records[k][4] == "true") == cache[k].ignored
  {
    var idx := IdIndex(p, cache);
    forall k | 0 <= k < |records|
      ensures |records[k]| >= 6
      ensures records[k][0] in idx && idx[records[k][0]] == k
      ensures k != i ==> records[k][5] == cache[k].category && (records[k][4] == "true") == cache[k].ignored
    {
      IdIndexFindsEach(p, cache, k);
      if k != i {
        assert records[k] == EditRecord(p, cache[k]);
      }
    }
  }

  /** Editing one row of a full export, its category or its ignored flag or both, and
      feeding the export back edits exactly that transaction and sends it alone to `Update`. */
  lemma OneRowEdit(p: Primitives, cache: seq<Transaction>, records: seq<seq<string>>, i: nat, c: string, b: bool)
    requires forall a, b :: 0 <= a < b < |cache| ==> Id(p, cache[a]) != Id(p, cache[b])
    requires OneRowEdited(p, cache, records, i, c, b)
    requires c != cache[i].category || b != cache[i].ignored
    ensures forall r :: r in records ==> |r| >= 6
    ensures var e := ApplyEdits(IdIndex(p, cache), cache, records);
            e == Edit(cache[i := cache[i].(category := c, ignored := b)], [i])
            && Resolve(e) == [cache[i].(category := c, ignored := b)]
  {
    OneRowFacts(p, cache, records, i, c, b);
    OneRowEditLoop(IdIndex(p, cache), cache, records, i, c, b);
  }

  /** A new category in row i of a full export edits that transaction's category alone. */
  lemma OneCategoryEdit(p: Primitives, cache: seq<Transaction>, records: seq<seq<string>>, i: nat, c: string)
    requires forall a, b :: 0 <= a < b < |cache| ==> Id(p, cache[a]) != Id(p, cache[b])
    requires |records| == |cache| && i < |cache| && c != cache[i].category
    requires forall k :: 0 <= k < |records| && k != i ==> records[k] == EditRecord(p, cache[k])
    requires records[i] == EditRecord(p, cache[i])[5 := c]
    ensures forall r :: r in records ==> |r| >= 6
    ensures var e := ApplyEdits(IdIndex(p, cache), cache, records);
            e == Edit(cache[i := cache[i].(category := c)], [i])
            && Resolve(e) == [cache[i].(category := c)]
  {
    OneRowEdit(p, cache, records, i, c, cache[i].ignored);
    assert cache[i].(category := c, ignored := cache[i].ignored) == cache[i].(category := c);
  }

  /** A flipped ignored flag in row i of a full export edits that transaction's flag alone. */
  lemma OneIgnoredEdit(p: Primitives, cache: seq<Transaction>, records: seq<seq<string>>, i: nat, b: bool)
    requires forall a, b :: 0 <= a < b < |cache| ==> Id(p, cache[a]) != Id(p, cache[b])
    requires |records| == |cache| && i < |cache| && b != cache[i].ignored
    requires forall k :: 0 <= k < |records| && k != i ==> records[k] == EditRecord(p, cache[k])
    requires records[i] == EditRecord(p, cache[i])[4 := BoolText(b)]
    ensures forall r :: r in records ==> |r| >= 6
    ensures var e := ApplyEdits(IdIndex(p, cache), cache, records);
            e == Edit(cache[i := cache[i].(ignored := b)], [i])
            && Resolve(e) == [cache[i].(ignored := b)]
  {
    OneRowEdit(p, cache, records, i, cache[i].category, b);
    assert cache[i].(category := cache[i].category, ignored := b) == cache[i].(ignored := b);
  }
}
