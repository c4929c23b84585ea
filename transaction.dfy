/**
 * transaction.go: the ledger entry, its content-derived identity, the sort comparator,
 * the rendered table rows and the per-category views of a slice of transactions.
 */
module Transactions {
  import opened Wrappers
  import opened Text
  import opened Dates
  import Util

  /** A lower-case hex rendering of a 16-byte md5 digest. */
  type Hex32 = s: string | |s| == 32 witness "00000000000000000000000000000000"

  /** The library functions the ledger calls and that are not modelled here, as values:
      md5 as hex text (`hex.EncodeToString(md5.Sum(..))`), `fmt.Sprintf("%.2f", x)`,
      the accounting library's `FormatMoney` with "$" and two decimals, and
      `strconv.ParseFloat(s, 64)` (None when it returns an error). */
  datatype Primitives = Primitives(
    md5Hex: string -> Hex32,
    fixed2: real -> string,
    money: real -> string,
    parseFloat: string -> Option<real>)

  /** `Transaction`. Source, category and the ignored flag are edited by the user; the other
      fields come from the bank record. The amount is Go's float64, kept as a real because the
      ledger only compares and formats it. */
  datatype Transaction = Transaction(
    source: string,
    date: Date,
    memo: string,
    amount: real,
    disambiguation: string,
    category: string,
    ignored: bool)

  /** The text `Id` hashes: date as MM/DD/YYYY, amount with two decimals, memo and
      disambiguation, with no separators. */
  function IdText(p: Primitives, tx: Transaction): string {
    Format(tx.date) + p.fixed2(tx.amount) + tx.memo + tx.disambiguation
  }

  /** `tx.Id()`: the first ten hex characters of the md5 of `IdText`. */
  function Id(p: Primitives, tx: Transaction): (id: string)
    ensures |id| == 10
  {
    p.md5Hex(IdText(p, tx))[..10]
  }

  /** Editing source, category or the ignored flag never changes a transaction's Id. */
  lemma IdIgnoresUserFields(p: Primitives, tx: Transaction, source: string, category: string, ignored: bool)
    ensures Id(p, tx.(source := source, category := category, ignored := ignored)) == Id(p, tx)
  {
  }

  /** Two transactions that agree on date, two-decimal amount, memo and disambiguation share
      their Id. */
  lemma IdDependsOnOriginFields(p: Primitives, a: Transaction, b: Transaction)
    requires a.date == b.date && p.fixed2(a.amount) == p.fixed2(b.amount)
    requires a.memo == b.memo && a.disambiguation == b.disambiguation
    ensures Id(p, a) == Id(p, b)
  {
  }

  /** The hashed text has no separators, so moving trailing memo bytes into the
      disambiguation gives the same Id: memo "Payment 1" with no disambiguation and memo
      "Payment " with disambiguation "1" collide. */
  lemma MemoDisambiguationBoundary(p: Primitives, tx: Transaction, k: nat)
    requires k <= |tx.memo| && tx.disambiguation == ""
    ensures Id(p, tx.(memo := tx.memo[..k], disambiguation := tx.memo[k..])) == Id(p, tx)
  {
    assert tx.memo[..k] + tx.memo[k..] == tx.memo;
    assert IdText(p, tx.(memo := tx.memo[..k], disambiguation := tx.memo[k..])) == IdText(p, tx);
  }

  /** `fmt.Sprintf("%v", b)` for a bool. */
  function BoolText(b: bool): string {
    if b then "true" else "false"
  }

  /** `tx.String()`. */
  function Describe(p: Primitives, tx: Transaction): string {
    Id(p, tx) + " " + Format(tx.date) + " " + p.fixed2(tx.amount) + " " + tx.memo + " "
      + tx.source + " " + tx.category + " " + BoolText(tx.ignored)
  }

  /** The answer of a `Less` call: an order, or the panic it raises on equal Ids. */
  datatype Comparison = Ordered(less: bool) | Panic(msg: string)

  /** `TransactionDateSort.Less` as written: its date key uses the layout "01/02/2016",
      which carries month and day but no year. */
  function LessAsWritten(p: Primitives, a: Transaction, b: Transaction): Comparison {
    if FormatNoYear(a.date) != FormatNoYear(b.date) then Ordered(Before(a.date, b.date))
    else if Id(p, a) != Id(p, b) then Ordered(StrLess(Id(p, a), Id(p, b)))
    else Panic("Two transactions are equal: " + Describe(p, a) + " " + Describe(p, b))
  }

  /** As written, two transactions on the same month and day are ordered by Id whatever
      their years. */
  lemma LessAsWrittenIgnoresYear(p: Primitives, a: Transaction, b: Transaction)
    requires a.date.month == b.date.month && a.date.day == b.date.day
    requires Id(p, a) != Id(p, b)
    ensures LessAsWritten(p, a, b) == Ordered(StrLess(Id(p, a), Id(p, b)))
  {
  }

  /** A digest for the concrete case below: it hashes every text whose year field reads
      2017 to all 'f's and every other text to all '0's. */
  const YearDigest: Primitives := Primitives(
    s => if |s| >= 10 && s[6..10] == "2017" then "ffffffffffffffffffffffffffffffff"
         else "00000000000000000000000000000000",
    x => "1.00", x => "$1.00", s => None)

  /** Two transactions that differ only in their year. */
  const Early: Transaction := Transaction("dcu", Date(2017, 1, 5), "memo", 1.0, "", "", false)
  const Late: Transaction := Transaction("dcu", Date(2018, 1, 5), "memo", 1.0, "", "", false)

  /** The Ids the stand-in digest gives the two transactions. */
  lemma EarlyId()
    ensures Id(YearDigest, Early) == "ffffffffff"
  {
    assert Format(Early.date) == "01/05/2017";
    assert IdText(YearDigest, Early)[6..10] == "2017";
  }

  lemma LateId()
    ensures Id(YearDigest, Late) == "0000000000"
  {
    assert Format(Late.date) == "01/05/2018";
    assert IdText(YearDigest, Late)[6..10] == "2018";
  }

  /** A concrete case: with a digest that hashes the 2017 entry above the 2018 one, the
      comparator as written puts 01/05/2018 before 01/05/2017. */
  lemma LessAsWrittenPutsLaterYearFirst()
    ensures Before(Early.date, Late.date)
    ensures LessAsWritten(YearDigest, Late, Early) == Ordered(true)
    ensures LessAsWritten(YearDigest, Early, Late) == Ordered(false)
  {
    EarlyId();
    LateId();
    FormatNoYearIgnoresYear(Early.date, Late.date);
    assert StrLess("0000000000", "ffffffffff");
    StrLessAsymmetric("0000000000", "ffffffffff");
  }

  /** A third transaction, between the two in time and on another month and day. */
  const Middle: Transaction := Transaction("dcu", Date(2017, 6, 1), "memo", 1.0, "", "", false)

  /** As written the comparator is not even a strict order: 01/05/2018 sorts before
      01/05/2017, which sorts before 06/01/2017, which sorts before 01/05/2018. */
  lemma LessAsWrittenCycles()
    ensures LessAsWritten(YearDigest, Late, Early) == Ordered(true)
    ensures LessAsWritten(YearDigest, Early, Middle) == Ordered(true)
    ensures LessAsWritten(YearDigest, Middle, Late) == Ordered(true)
  {
    LessAsWrittenPutsLaterYearFirst();
    FormatNoYearIgnoresYear(Early.date, Middle.date);
    FormatNoYearIgnoresYear(Middle.date, Late.date);
  }

  /** The comparator as evidently intended: the date key "01/02/2006" includes the year. */
  function Less(p: Primitives, a: Transaction, b: Transaction): Comparison {
    if Format(a.date) != Format(b.date) then Ordered(Before(a.date, b.date))
    else if Id(p, a) != Id(p, b) then Ordered(StrLess(Id(p, a), Id(p, b)))
    else Panic("Two transactions are equal: " + Describe(p, a) + " " + Describe(p, b))
  }

  /** With the intended key, transactions on different days are ordered by date and
      transactions on the same day by Id; only equal Ids panic. */
  lemma LessOrdersByDateThenId(p: Primitives, a: Transaction, b: Transaction)
    requires Valid(a.date) && Valid(b.date)
    ensures a.date != b.date ==> Less(p, a, b) == Ordered(Before(a.date, b.date))
    ensures a.date == b.date && Id(p, a) != Id(p, b) ==> Less(p, a, b) == Ordered(StrLess(Id(p, a), Id(p, b)))
    ensures Less(p, a, b).Panic? <==> a.date == b.date && Id(p, a) == Id(p, b)
  {
    if Format(a.date) == Format(b.date) {
      FormatInjective(a.date, b.date);
    }
  }

  /** The intended comparator is a strict total order on transactions with valid days and
      distinct Ids. */
  lemma LessIsStrictOrder(p: Primitives, a: Transaction, b: Transaction, c: Transaction)
    requires Valid(a.date) && Valid(b.date) && Valid(c.date)
    requires Id(p, a) != Id(p, b) && Id(p, b) != Id(p, c) && Id(p, a) != Id(p, c)
    ensures Less(p, a, b).Ordered? && (Less(p, a, b).less <==> !Less(p, b, a).less)
    ensures Less(p, a, b) == Ordered(true) && Less(p, b, c) == Ordered(true) ==> Less(p, a, c) == Ordered(true)
  {
    LessOrdersByDateThenId(p, a, b);
    LessOrdersByDateThenId(p, b, a);
    LessOrdersByDateThenId(p, b, c);
    LessOrdersByDateThenId(p, a, c);
    StrLessTotal(Id(p, a), Id(p, b));
    if StrLess(Id(p, a), Id(p, b)) {
      StrLessAsymmetric(Id(p, a), Id(p, b));
    }
    if StrLess(Id(p, a), Id(p, b)) && StrLess(Id(p, b), Id(p, c)) {
      StrLessTransitive(Id(p, a), Id(p, b), Id(p, c));
    }
  }

  /** The bytes of "✓" and "✘" in UTF-8. */
  const CheckMark: string := [0xE2 as char, 0x9C as char, 0x93 as char]
  const CrossMark: string := [0xE2 as char, 0x9C as char, 0x98 as char]

  /** `tx.TableRow()`: ignored marker, source, date, money, category, memo. */
  function TableRow(p: Primitives, tx: Transaction): (row: seq<string>)
    ensures |row| == 6
    ensures row[0] == CrossMark <==> tx.ignored
    ensures |row[0]| == 3
  {
    [if tx.ignored then CrossMark else CheckMark, tx.source, Format(tx.date), p.money(tx.amount), tx.category, tx.memo]
  }

  /** `tx.CsvRow()`: source, date, memo, two-decimal amount, disambiguation. */
  function CsvRow(p: Primitives, tx: Transaction): seq<string> {
    [tx.source, Format(tx.date), tx.memo, p.fixed2(tx.amount), tx.disambiguation]
  }

  /** A CSV row carries everything the Id is made of. */
  lemma CsvRowDeterminesId(p: Primitives, a: Transaction, b: Transaction)
    requires CsvRow(p, a) == CsvRow(p, b)
    ensures Id(p, a) == Id(p, b)
  {
    assert CsvRow(p, a)[1] == CsvRow(p, b)[1] && CsvRow(p, a)[2] == CsvRow(p, b)[2];
    assert CsvRow(p, a)[3] == CsvRow(p, b)[3] && CsvRow(p, a)[4] == CsvRow(p, b)[4];
    assert IdText(p, a) == IdText(p, b);
  }

  /* ---------- TableRows ---------- */

  function Spaces(n: nat): (s: string)
    ensures |s| == n && forall i :: 0 <= i < n ==> s[i] == ' '
  {
    if n == 0 then "" else Spaces(n - 1) + " "
  }

  /** The widest cell of column `col` over `txs`, in bytes (0 for no transactions). */
  function MaxWidth(p: Primitives, txs: seq<Transaction>, col: nat): nat
    requires col < 6
  {
    if txs == [] then 0
    else
      var w0 := MaxWidth(p, txs[..|txs| - 1], col);
      var c := |TableRow(p, txs[|txs| - 1])[col]|;
      if c > w0 then c else w0
  }

  /** `MaxWidth` is the width of some cell of the column, and no cell of it is wider. */
  lemma {:induction false} MaxWidthIsWidest(p: Primitives, txs: seq<Transaction>, col: nat)
    requires col < 6
    ensures forall i :: 0 <= i < |txs| ==> |TableRow(p, txs[i])[col]| <= MaxWidth(p, txs, col)
    ensures txs != [] ==> exists i :: 0 <= i < |txs| && |TableRow(p, txs[i])[col]| == MaxWidth(p, txs, col)
  {
    if txs != [] {
      var n := |txs| - 1;
      MaxWidthIsWidest(p, txs[..n], col);
      assert forall i :: 0 <= i < n ==> txs[..n][i] == txs[i];
      if n > 0 && MaxWidth(p, txs, col) == MaxWidth(p, txs[..n], col) {
        var i :| 0 <= i < n && |TableRow(p, txs[..n][i])[col]| == MaxWidth(p, txs[..n], col);
        assert |TableRow(p, txs[i])[col]| == MaxWidth(p, txs, col);
      }
    }
  }

  lemma MaxWidthStep(p: Primitives, txs: seq<Transaction>, k: nat, col: nat)
    requires k < |txs| && col < 6
    ensures var c := |TableRow(p, txs[k])[col]|;
            MaxWidth(p, txs[..k + 1], col) == if c > MaxWidth(p, txs[..k], col) then c else MaxWidth(p, txs[..k], col)
  {
    assert txs[..k + 1][..k] == txs[..k];
  }

  /** Every row of `txs` fits the widths of `txs`. */
  lemma RowsFitWidths(p: Primitives, txs: seq<Transaction>, k: nat)
    requires k < |txs|
    ensures forall c :: 0 <= c < 6 ==> |TableRow(p, txs[k])[c]| <= ColumnWidths(p, txs)[c]
  {
    forall c | 0 <= c < 6
      ensures |TableRow(p, txs[k])[c]| <= ColumnWidths(p, txs)[c]
    {
      MaxWidthIsWidest(p, txs, c);
    }
  }

  function ColumnWidths(p: Primitives, txs: seq<Transaction>): (ws: seq<nat>)
    ensures |ws| == 6
  {
    seq(6, col requires 0 <= col < 6 => MaxWidth(p, txs, col))
  }

  /** `PadRight(cell, " ", n)`: the cell cut or space-filled to exactly n bytes. */
  function PadTo(cell: string, n: nat): (s: string)
    ensures |s| == n
  {
    if |cell| >= n then cell[..n] else cell + Spaces(n - |cell|)
  }

  /** A rendered row: each cell padded to one more than its column's width. */
  function Line(cells: seq<string>, widths: seq<nat>): (s: string)
    requires |cells| == |widths|
  {
    if cells == [] then ""
    else
      var n := |cells| - 1;
      Line(cells[..n], widths[..n]) + PadTo(cells[n], widths[n] + 1)
  }

  function SumOf(ws: seq<nat>): nat {
    if ws == [] then 0 else SumOf(ws[..|ws| - 1]) + ws[|ws| - 1]
  }

  /** Each cell takes exactly its column's width plus one byte, so a line's length depends
      only on the widths. */
  lemma {:induction false} LineLength(cells: seq<string>, widths: seq<nat>)
    requires |cells| == |widths|
    ensures |Line(cells, widths)| == SumOf(widths) + |widths|
  {
    if cells != [] {
      var n := |cells| - 1;
      LineLength(cells[..n], widths[..n]);
    }
  }

  /** All rows of `TableRows(false)` have the same length, so the columns line up. */
  lemma TableLinesAligned(p: Primitives, txs: seq<Transaction>, j: nat, k: nat)
    requires j < |txs| && k < |txs|
    ensures |Line(TableRow(p, txs[j]), ColumnWidths(p, txs))| == |Line(TableRow(p, txs[k]), ColumnWidths(p, txs))|
  {
    LineLength(TableRow(p, txs[j]), ColumnWidths(p, txs));
    LineLength(TableRow(p, txs[k]), ColumnWidths(p, txs));
  }

  /** What `PadRight(cell, " ", n)` produces, read off its contract. */
  lemma {:induction false} PaddedTo(cell: string, r: string, n: nat)
    requires |r| == n
    requires forall i :: 0 <= i < n && i < |cell| ==> r[i] == cell[i]
    requires forall i :: |cell| <= i < n && i < |cell| + 1 ==> r[i] == " "[i - |cell|]
    requires forall i :: |cell| + 1 <= i < n ==> r[i] == r[i - 1]
    ensures r == PadTo(cell, n)
  {
    if |cell| >= n {
    } else if n == |cell| + 1 {
      assert r[|cell|] == ' ';
    } else {
      PaddedTo(cell, r[..n - 1], n - 1);
      assert r[n - 1] == r[n - 2];
    }
  }

  /** The inner loop of the first pass of `TableRows`: widen each column's entry to the
      row's cell when that cell is wider or the column has no entry yet. */
  method Widen(before: map<int, nat>, row: seq<string>) returns (maxColumnWidth: map<int, nat>)
    ensures forall c :: c in maxColumnWidth <==> c in before || 0 <= c < |row|
    ensures forall c :: 0 <= c < |row| ==>
              maxColumnWidth[c] == (if c in before && before[c] >= |row[c]| then before[c] else |row[c]|)
    ensures forall c :: c in before && !(0 <= c < |row|) ==> maxColumnWidth[c] == before[c]
  {
    maxColumnWidth := before;
    for col := 0 to |row|
      invariant forall c :: c in maxColumnWidth <==> c in before || 0 <= c < col
      invariant forall c :: 0 <= c < col ==>
                  maxColumnWidth[c] == (if c in before && before[c] >= |row[c]| then before[c] else |row[c]|)
      invariant forall c :: c in before && !(0 <= c < col) ==> maxColumnWidth[c] == before[c]
    {
      var cell := row[col];
      if col !in maxColumnWidth || |cell| > maxColumnWidth[col] {
        maxColumnWidth := maxColumnWidth[col := |cell|];
      }
    }
  }

  /** The first loop of `TableRows`: the widest cell of each column, keyed by column
      index; no key at all when there are no transactions. */
  method WidestCells(p: Primitives, txs: seq<Transaction>) returns (maxColumnWidth: map<int, nat>)
    ensures forall c :: c in maxColumnWidth <==> 0 <= c < 6 && txs != []
    ensures forall c :: 0 <= c < 6 && txs != [] ==> maxColumnWidth[c] == MaxWidth(p, txs, c)
  {
    maxColumnWidth := map[];
    for k := 0 to |txs|
      invariant forall c :: c in maxColumnWidth <==> 0 <= c < 6 && k > 0
      invariant forall c :: 0 <= c < 6 && k > 0 ==> maxColumnWidth[c] == MaxWidth(p, txs[..k], c)
    {
      maxColumnWidth := Widen(maxColumnWidth, TableRow(p, txs[k]));
      forall c | 0 <= c < 6
        ensures maxColumnWidth[c] == MaxWidth(p, txs[..k + 1], c)
      {
        MaxWidthStep(p, txs, k, c);
      }
    }
    assert txs[..|txs|] == txs;
  }

  /** The inner loop of the second pass of `TableRows`: each cell right-padded with spaces
      to one more than its column's width, concatenated. */
  method RenderLine(row: seq<string>, widths: seq<nat>) returns (rowString: string)
    requires |row| == |widths|
    ensures rowString == Line(row, widths)
  {
    rowString := "";
    for i := 0 to |row|
      invariant rowString == Line(row[..i], widths[..i])
    {
      var padded := Util.PadRight(row[i], " ", widths[i] + 1);
      PaddedTo(row[i], padded, widths[i] + 1);
      assert row[..i + 1][..i] == row[..i] && widths[..i + 1][..i] == widths[..i];
      rowString := rowString + padded;
    }
    assert row[..|row|] == row && widths[..|row|] == widths;
  }

  /** The loop of `TableRows`: each row rendered with the same widths. */
  method RenderLines(rows: seq<seq<string>>, widths: seq<nat>) returns (table: seq<string>)
    requires forall k :: 0 <= k < |rows| ==> |rows[k]| == |widths|
    ensures |table| == |rows|
    ensures forall k :: 0 <= k < |rows| ==> table[k] == Line(rows[k], widths)
  {
    table := [];
    for k := 0 to |rows|
      invariant |table| == k
      invariant forall j :: 0 <= j < k ==> table[j] == Line(rows[j], widths)
    {
      var rowString := RenderLine(rows[k], widths);
      table := table + [rowString];
    }
  }

  /** Reading the width map of `WidestCells` column by column, a missing column being 0, gives
      the column widths. */
  lemma WidthsOfMap(p: Primitives, txs: seq<Transaction>, m: map<int, nat>, widths: seq<nat>)
    requires forall c :: c in m <==> 0 <= c < 6 && txs != []
    requires forall c :: 0 <= c < 6 && txs != [] ==> m[c] == MaxWidth(p, txs, c)
    requires widths == seq(6, c requires 0 <= c < 6 => if c in m then m[c] else 0)
    ensures widths == ColumnWidths(p, txs)
  {
    forall c | 0 <= c < 6
      ensures widths[c] == ColumnWidths(p, txs)[c]
    {
      if txs == [] {
        assert MaxWidth(p, txs, c) == 0;
      }
    }
  }

  /** `slice.TableRows(false)`: one line per transaction, every cell padded to one more than
      the widest cell of its column. */
  method TableRows(p: Primitives, txs: seq<Transaction>) returns (table: seq<string>)
    ensures |table| == |txs|
    ensures forall k :: 0 <= k < |txs| ==> table[k] == Line(TableRow(p, txs[k]), ColumnWidths(p, txs))
  {
    var maxColumnWidth := WidestCells(p, txs);
    var widths: seq<nat> := seq(6, c requires 0 <= c < 6 => if c in maxColumnWidth then maxColumnWidth[c] else 0);
    WidthsOfMap(p, txs, maxColumnWidth, widths);
    var rows := seq(|txs|, k requires 0 <= k < |txs| => TableRow(p, txs[k]));
    table := RenderLines(rows, widths);
  }

  /* ---------- Categories and counts ---------- */

  /** The categories of the transactions that are not ignored. */
  ghost function CategorySet(txs: seq<Transaction>): set<string> {
    set t | t in txs && !t.ignored :: t.category
  }

  /** `slice.Categories()`: every category of a non-ignored transaction, once each, in the
      unspecified order of a Go map. */
  method Categories(txs: seq<Transaction>) returns (categoriesSlice: seq<string>)
    ensures forall i, j :: 0 <= i < j < |categoriesSlice| ==> categoriesSlice[i] != categoriesSlice[j]
    ensures forall c :: c in categoriesSlice <==> c in CategorySet(txs)
  {
    var categories: set<string> := {};
    for k := 0 to |txs|
      invariant categories == CategorySet(txs[..k])
    {
      assert txs[..k + 1] == txs[..k] + [txs[k]];
      if !txs[k].ignored {
        categories := categories + {txs[k].category};
      }
    }
    assert txs[..|txs|] == txs;
    categoriesSlice := [];
    var rest := categories;
    while rest != {}
      invariant rest <= categories
      invariant forall c :: c in categoriesSlice <==> c in categories - rest
      invariant forall i, j :: 0 <= i < j < |categoriesSlice| ==> categoriesSlice[i] != categoriesSlice[j]
      decreases rest
    {
      var category :| category in rest;
      assert category !in categoriesSlice;
      categoriesSlice := categoriesSlice + [category];
      rest := rest - {category};
    }
  }

  /** How many non-ignored transactions carry category `c`. */
  function CountIn(txs: seq<Transaction>, c: string): nat {
    if txs == [] then 0
    else
      var t := txs[|txs| - 1];
      CountIn(txs[..|txs| - 1], c) + (if !t.ignored && t.category == c then 1 else 0)
  }

  function NonIgnored(txs: seq<Transaction>): nat {
    if txs == [] then 0
    else NonIgnored(txs[..|txs| - 1]) + (if txs[|txs| - 1].ignored then 0 else 1)
  }

  /** `slice.TransactionCountByCategory()`: one entry per category of a non-ignored
      transaction, holding how many non-ignored transactions carry it. */
  method TransactionCountByCategory(txs: seq<Transaction>) returns (totals: map<string, int>)
    ensures totals.Keys == CategorySet(txs)
    ensures forall c :: c in totals ==> totals[c] == CountIn(txs, c) && totals[c] > 0
  {
    totals := map[];
    for k := 0 to |txs|
      invariant totals.Keys == CategorySet(txs[..k])
      invariant forall c :: c in totals ==> totals[c] == CountIn(txs[..k], c) && totals[c] > 0
      invariant forall c :: c !in totals ==> CountIn(txs[..k], c) == 0
    {
      var tx := txs[k];
      CountStep(txs, k);
      if !tx.ignored {
        totals := totals[tx.category := (if tx.category in totals then totals[tx.category] else 0) + 1];
      }
    }
    assert txs[..|txs|] == txs;
  }

  /** What one more transaction adds to the categories and to each count. */
  lemma CountStep(txs: seq<Transaction>, k: int)
    requires 0 <= k < |txs|
    ensures CategorySet(txs[..k + 1]) == CategorySet(txs[..k]) + (if txs[k].ignored then {} else {txs[k].category})
    ensures forall c :: CountIn(txs[..k + 1], c) == CountIn(txs[..k], c) + (if !txs[k].ignored && txs[k].category == c then 1 else 0)
  {
    assert txs[..k + 1] == txs[..k] + [txs[k]];
    assert txs[..k + 1][..k] == txs[..k];
  }

  /** The counts of a list of categories, added up. */
  function SumCounts(txs: seq<Transaction>, cats: seq<string>): nat {
    if cats == [] then 0 else CountIn(txs, cats[0]) + SumCounts(txs, cats[1..])
  }

  lemma {:induction false} SumCountsStep(txs: seq<Transaction>, t: Transaction, cats: seq<string>)
    requires forall i, j :: 0 <= i < j < |cats| ==> cats[i] != cats[j]
    ensures SumCounts(txs + [t], cats) == SumCounts(txs, cats) + (if !t.ignored && t.category in cats then 1 else 0)
  {
    assert (txs + [t])[..|txs|] == txs;
    if cats != [] {
      SumCountsStep(txs, t, cats[1..]);
      assert t.category in cats <==> t.category == cats[0] || t.category in cats[1..];
    }
  }

  /** The per-category counts add up to the number of non-ignored transactions, for any
      duplicate-free list that contains every category (in particular the map's keys). */
  lemma {:induction false} CountsSumToNonIgnored(txs: seq<Transaction>, cats: seq<string>)
    requires forall i, j :: 0 <= i < j < |cats| ==> cats[i] != cats[j]
    requires forall c :: c in CategorySet(txs) ==> c in cats
    ensures SumCounts(txs, cats) == NonIgnored(txs)
  {
    if txs == [] {
      ZeroCounts(cats);
    } else {
      var front, t := txs[..|txs| - 1], txs[|txs| - 1];
      assert txs == front + [t];
      assert CategorySet(front) <= CategorySet(txs);
      CountsSumToNonIgnored(front, cats);
      SumCountsStep(front, t, cats);
      if !t.ignored {
        assert t.category in CategorySet(txs);
      }
    }
  }

  lemma {:induction false} ZeroCounts(cats: seq<string>)
    ensures SumCounts([], cats) == 0
  {
    if cats != [] {
      ZeroCounts(cats[1..]);
    }
  }

  /* ---------- Edit export ---------- */

  /** One record of `GetEditTsv`: Id, memo, date, money, ignored flag as "true"/"false",
      category. Fields 0, 4 and 5 are the ones `SaveEditTsv` reads back. */
  function EditRecord(p: Primitives, tx: Transaction): (r: seq<string>)
    ensures |r| == 6 && r[0] == Id(p, tx) && r[5] == tx.category
    ensures r[4] == "true" <==> tx.ignored
  {
    [Id(p, tx), tx.memo, Format(tx.date), p.money(tx.amount), BoolText(tx.ignored), tx.category]
  }

  /** `slice.GetEditTsv()`, up to the CSV encoding: one record per transaction, in slice
      order. */
  method GetEditTsv(p: Primitives, txs: seq<Transaction>) returns (records: seq<seq<string>>)
    ensures |records| == |txs|
    ensures forall k :: 0 <= k < |txs| ==> records[k] == EditRecord(p, txs[k])
  {
    records := [];
    for k := 0 to |txs|
      invariant |records| == k
      invariant forall j :: 0 <= j < k ==> records[j] == EditRecord(p, txs[j])
    {
      var tx := txs[k];
      var row := [Id(p, tx), tx.memo, Format(tx.date), p.money(tx.amount), BoolText(tx.ignored), tx.category];
      records := records + [row];
    }
  }
}
