/**
 * import.go: turning bank CSV exports into transactions and investments, and the
 * `TransactionImporter` that collects them keyed by Id, disambiguating Id collisions.
 *
 * CSV records arrive already split into fields. Reading a field past the end of a record,
 * or indexing the submatches of a date that does not match, is a Go panic; here it is the
 * `Crash` step and the `Crashed` status, after which nothing further happens.
 */
module Import {
  import opened Wrappers
  import opened Text
  import opened Dates
  import opened Transactions

  /** `Investment`. The account is an int64, shares and price are float64 kept as reals. */
  datatype Investment = Investment(
    account: int,
    date: Date,
    kind: string,
    symbol: string,
    shares: real,
    price: real,
    disambiguation: string)

  /** `investment.Id()` (investment.go): the first ten hex characters of the md5 of
      account, "01/02/2006" date, type, symbol, shares and price with two decimals, and the
      disambiguation, with no separators. */
  function InvestmentId(p: Primitives, inv: Investment): (id: string)
    ensures |id| == 10
  {
    p.md5Hex(Itoa(inv.account) + Format(inv.date) + inv.kind + inv.symbol
             + p.fixed2(inv.shares) + p.fixed2(inv.price) + inv.disambiguation)[..10]
  }

  // ---------------------------------------------------------------------------------------
  // Disambiguation

  /** The transaction with `Disambiguation` set to `fmt.Sprintf("%d", i)`. */
  function TxRetry(tx: Transaction, i: nat): Transaction {
    tx.(disambiguation := Itoa(i))
  }

  function InvRetry(inv: Investment, i: nat): Investment {
    inv.(disambiguation := Itoa(i))
  }

  function TxKey(p: Primitives): Transaction -> string {
    tx => Id(p, tx)
  }

  function InvKey(p: Primitives): Investment -> string {
    inv => InvestmentId(p, inv)
  }

  /** How `Add` stores `x` when the keys in `claimed` are taken: unchanged when its own key is
      free, otherwise as the first retry 0, 1, ... whose key is free. */
  ghost predicate StoredAs<T>(key: T -> string, retry: (T, nat) -> T, claimed: set<string>, x: T, stored: T) {
    if key(x) !in claimed then stored == x
    else exists i: nat :: stored == retry(x, i) && key(stored) !in claimed
                          && forall j :: 0 <= j < i ==> key(retry(x, j)) in claimed
  }

  /** The retries 0..n of `x` have pairwise different keys. */
  predicate Separates<T>(key: T -> string, retry: (T, nat) -> T, x: T, n: nat) {
    forall i, j :: 0 <= i < j <= n ==> key(retry(x, i)) != key(retry(x, j))
  }

  /** The Ids of 0..n. */
  function Image(ids: nat -> string, n: nat): set<string> {
    set i | 0 <= i <= n :: ids(i)
  }

  lemma {:induction false} ImageSize(ids: nat -> string, n: nat)
    requires forall i, j :: 0 <= i < j <= n ==> ids(i) != ids(j)
    ensures |Image(ids, n)| == n + 1
  {
    if n == 0 {
      assert Image(ids, 0) == {ids(0)};
    } else {
      ImageSize(ids, n - 1);
      assert Image(ids, n) == Image(ids, n - 1) + {ids(n)};
      assert ids(n) !in Image(ids, n - 1);
    }
  }

  lemma {:induction false} SubsetSize(a: set<string>, b: set<string>)
    requires a <= b
    ensures |a| <= |b|
  {
    if a != {} {
      var x :| x in a;
      SubsetSize(a - {x}, b - {x});
    }
  }

  /** Pigeonhole: n + 1 different Ids cannot all be among at most n claimed ones. */
  lemma Pigeonhole(ids: nat -> string, claimed: set<string>, n: nat)
    requires |claimed| <= n
    requires forall i, j :: 0 <= i < j <= n ==> ids(i) != ids(j)
    ensures exists i :: 0 <= i <= n && ids(i) !in claimed
  {
    ImageSize(ids, n);
    if forall i :: 0 <= i <= n ==> ids(i) in claimed {
      SubsetSize(Image(ids, n), claimed);
    }
  }

  /** When the first n + 1 retries have different keys and at most n keys are taken, the
      search in `Add` ends. */
  lemma FreeRetryExists<T>(key: T -> string, retry: (T, nat) -> T, x: T, claimed: set<string>, n: nat)
    requires Separates(key, retry, x, n) && |claimed| <= n
    ensures exists i: nat :: key(retry(x, i)) !in claimed
  {
    Pigeonhole((i: nat) => key(retry(x, i)), claimed, n);
  }

  /** The map after storing each of `added`, in order, under its key. */
  function Stored<T>(m: map<string, T>, added: seq<T>, key: T -> string): map<string, T> {
    if added == [] then m
    else Stored(m, added[..|added| - 1], key)[key(added[|added| - 1]) := added[|added| - 1]]
  }

  /** `added` are the entries of `acc` as `Add` stores them one after the other, starting
      from the map `m`. */
  ghost predicate StoredInOrder<T>(key: T -> string, retry: (T, nat) -> T, m: map<string, T>, acc: seq<T>, added: seq<T>) {
    && |acc| == |added|
    && (added != [] ==>
          && StoredInOrder(key, retry, m, acc[..|acc| - 1], added[..|added| - 1])
          && StoredAs(key, retry, Stored(m, added[..|added| - 1], key).Keys, acc[|acc| - 1], added[|added| - 1]))
  }

  /** Storing one more entry: the map gains it under its key and the earlier prefixes of the
      batch are unchanged. */
  lemma StoredSnoc<T>(m: map<string, T>, added: seq<T>, x: T, key: T -> string)
    ensures Stored(m, added + [x], key) == Stored(m, added, key)[key(x) := x]
    ensures forall j :: 0 <= j <= |added| ==> (added + [x])[..j] == added[..j]
  {
    assert (added + [x])[..|added|] == added;
  }

  // ---------------------------------------------------------------------------------------
  // Per-record mapping

  /** Why an import stopped with an error. */
  datatype ImportError =
    | BadDate(text: string)     // `time.Parse` failed on this text
    | BadNumber(text: string)   // `strconv.ParseFloat` failed on this text
    | InvalidCsv                // `fmt.Errorf("Invalid CSV")`

  /** What one record contributes: an entry to add, nothing (`continue`), an error return, or
      a panic. */
  datatype Step<T> = Keep(value: T) | Skip | Stop(error: ImportError) | Crash

  /** The result of an import call: nil, an error, or a panic. */
  datatype Status = Done | Failed(error: ImportError) | Crashed

  /** The entries that get added: those kept before the first error or panic. */
  function Accepted<T>(steps: seq<Step<T>>): seq<T> {
    if steps == [] then []
    else match steps[0]
      case Keep(v) => [v] + Accepted(steps[1..])
      case Skip => Accepted(steps[1..])
      case _ => []
  }

  /** The status an import returns: the first error or panic, or nil. */
  function StatusOf<T>(steps: seq<Step<T>>): Status {
    if steps == [] then Done
    else match steps[0]
      case Stop(e) => Failed(e)
      case Crash => Crashed
      case _ => StatusOf(steps[1..])
  }

  /** An import loop at record k has accepted `acc` from the records before it, and has met
      no error yet. */
  ghost predicate Progress<T>(steps: seq<Step<T>>, k: nat, acc: seq<T>) {
    k <= |steps| && Accepted(steps) == acc + Accepted(steps[k..]) && StatusOf(steps) == StatusOf(steps[k..])
  }

  lemma ProgressKeep<T>(steps: seq<Step<T>>, k: nat, acc: seq<T>)
    requires Progress(steps, k, acc) && k < |steps| && steps[k].Keep?
    ensures Progress(steps, k + 1, acc + [steps[k].value])
  {
    AcceptedAt(steps, k, acc);
  }

  lemma ProgressSkip<T>(steps: seq<Step<T>>, k: nat, acc: seq<T>)
    requires Progress(steps, k, acc) && k < |steps| && steps[k].Skip?
    ensures Progress(steps, k + 1, acc)
  {
    AcceptedAt(steps, k, acc);
  }

  lemma ProgressStop<T>(steps: seq<Step<T>>, k: nat, acc: seq<T>)
    requires Progress(steps, k, acc) && k < |steps| && (steps[k].Stop? || steps[k].Crash?)
    ensures Accepted(steps) == acc
    ensures StatusOf(steps) == if steps[k].Stop? then Failed(steps[k].error) else Crashed
  {
    AcceptedAt(steps, k, acc);
  }

  lemma ProgressDone<T>(steps: seq<Step<T>>, acc: seq<T>)
    requires Progress(steps, |steps|, acc)
    ensures Accepted(steps) == acc && StatusOf(steps) == Done
  {
    AcceptedAt(steps, |steps|, acc);
  }

  /** One step of an import loop that has accepted `acc` from the records before k. */
  lemma AcceptedAt<T>(steps: seq<Step<T>>, k: nat, acc: seq<T>)
    requires k <= |steps|
    requires Accepted(steps) == acc + Accepted(steps[k..]) && StatusOf(steps) == StatusOf(steps[k..])
    ensures k == |steps| ==> Accepted(steps) == acc && StatusOf(steps) == Done
    ensures k < |steps| && steps[k].Keep? ==>
              && Accepted(steps) == (acc + [steps[k].value]) + Accepted(steps[k + 1..])
              && StatusOf(steps) == StatusOf(steps[k + 1..])
    ensures k < |steps| && steps[k].Skip? ==>
              Accepted(steps) == acc + Accepted(steps[k + 1..]) && StatusOf(steps) == StatusOf(steps[k + 1..])
    ensures k < |steps| && steps[k].Stop? ==> Accepted(steps) == acc && StatusOf(steps) == Failed(steps[k].error)
    ensures k < |steps| && steps[k].Crash? ==> Accepted(steps) == acc && StatusOf(steps) == Crashed
  {
    if k == |steps| {
      assert steps[k..] == [];
      assert acc + [] == acc;
    } else {
      assert steps[k..][1..] == steps[k + 1..];
      if steps[k].Keep? {
        assert acc + ([steps[k].value] + Accepted(steps[k + 1..])) == (acc + [steps[k].value]) + Accepted(steps[k + 1..]);
      } else if !steps[k].Skip? {
        assert acc + [] == acc;
      }
    }
  }

  /** Every added entry comes from a kept record, and an import that returns nil adds the
      entry of every kept record. */
  lemma {:induction false} AcceptedRows<T>(steps: seq<Step<T>>)
    ensures forall v :: v in Accepted(steps) ==> Keep(v) in steps
    ensures StatusOf(steps) == Done ==> forall k :: 0 <= k < |steps| && steps[k].Keep? ==> steps[k].value in Accepted(steps)
    ensures StatusOf(steps) == Done <==> forall k :: 0 <= k < |steps| ==> steps[k].Keep? || steps[k].Skip?
  {
    if steps != [] {
      AcceptedRows(steps[1..]);
      assert forall k :: 1 <= k < |steps| ==> steps[k] == steps[1..][k - 1];
    }
  }

  /** `cvt`: every "$" and every "," removed. */
  function Cvt(v: string): (r: string)
    ensures '$' !in r && ',' !in r
    ensures |r| <= |v|
    ensures '$' !in v && ',' !in v ==> r == v
    ensures forall c :: c != '$' && c != ',' ==> multiset(r)[c] == multiset(v)[c]
  {
    if v == [] then []
    else
      assert v == [v[0]] + v[1..];
      (if v[0] == '$' || v[0] == ',' then [] else [v[0]]) + Cvt(v[1..])
  }

  /** `cvt` works character by character, so the kept characters stay in their order: the
      text of a concatenation is the concatenation of the texts, and one character is
      dropped exactly when it is '$' or ','. */
  lemma {:induction false} CvtAppend(a: string, b: string)
    ensures Cvt(a + b) == Cvt(a) + Cvt(b)
    ensures |a| == 1 ==> Cvt(a) == if a[0] == '$' || a[0] == ',' then "" else a
  {
    if a == [] {
      assert a + b == b;
    } else {
      assert (a + b)[0] == a[0] && (a + b)[1..] == a[1..] + b;
      CvtAppend(a[1..], b);
    }
    if |a| == 1 {
      assert a[1..] == [] && Cvt(a[1..]) == [];
      assert a == [a[0]];
    }
  }

  /** Index just past the run of decimal digits starting at i. */
  function RunEnd(s: string, i: nat): (j: nat)
    requires i <= |s|
    ensures i <= j <= |s| && AllDigits(s[i..j]) && (j == |s| || !IsDigit(s[j]))
    decreases |s| - i
  {
    if i < |s| && IsDigit(s[i]) then RunEnd(s, i + 1) else i
  }

  datatype Triple = Triple(month: string, day: string, year: string)

  /** The submatches of `(\d+)/(\d+)/(\d+)` for a match starting at i. Each `\d+` is greedy
      and must be followed by "/" (or nothing, for the last), so each group is the whole run
      of digits and no shorter run can match instead. */
  function MatchAt(s: string, i: nat): (r: Option<Triple>)
    requires i <= |s|
    ensures r.Some? ==> r.value.month != [] && AllDigits(r.value.month)
    ensures r.Some? ==> r.value.day != [] && AllDigits(r.value.day)
    ensures r.Some? ==> r.value.year != [] && AllDigits(r.value.year)
  {
    var a := RunEnd(s, i);
    if a == i || a == |s| || s[a] != '/' then None
    else
      var b := RunEnd(s, a + 1);
      if b == a + 1 || b == |s| || s[b] != '/' then None
      else
        var c := RunEnd(s, b + 1);
        if c == b + 1 then None else Some(Triple(s[i..a], s[a + 1..b], s[b + 1..c]))
  }

  /** `FindStringSubmatch`: the submatches of the leftmost match at or after i. */
  function FindDate(s: string, i: nat): (r: Option<Triple>)
    requires i <= |s|
    ensures r.Some? ==> r.value.month != [] && AllDigits(r.value.month)
    ensures r.Some? ==> r.value.day != [] && AllDigits(r.value.day)
    ensures r.Some? ==> r.value.year != [] && AllDigits(r.value.year)
    decreases |s| - i
  {
    if MatchAt(s, i).Some? then MatchAt(s, i)
    else if i == |s| then None
    else FindDate(s, i + 1)
  }

  /** `normalizeDate`: month, day and year of the first d/d/d in the text, each read as an
      int16 (saturating at 32767, the error being ignored) and printed with "%02d/%02d/%04d".
      None is the panic on a text with no match. */
  function NormalizeDate(date: string): Option<string> {
    match FindDate(date, 0)
    case None => None
    case Some(t) =>
      Some(ZeroPad(ParseIntClamped(t.month, 16), 2) + "/" + ZeroPad(ParseIntClamped(t.day, 16), 2)
           + "/" + ZeroPad(ParseIntClamped(t.year, 16), 4))
  }

  lemma {:induction false} RunEndAt(s: string, i: nat, j: nat)
    requires i <= j <= |s| && AllDigits(s[i..j]) && (j == |s| || !IsDigit(s[j]))
    ensures RunEnd(s, i) == j
    decreases j - i
  {
    if i < j {
      assert IsDigit(s[i..j][0]);
      assert s[i + 1..j] == s[i..j][1..];
      RunEndAt(s, i + 1, j);
    }
  }

  /** Three non-empty runs of digits separated by "/" that make up the whole text match at 0. */
  lemma MatchAtRuns(s: string, x: nat, y: nat)
    requires 0 < x && x + 1 < y && y + 1 < |s| && s[x] == '/' && s[y] == '/'
    requires AllDigits(s[0..x]) && AllDigits(s[x + 1..y]) && AllDigits(s[y + 1..|s|])
    ensures FindDate(s, 0) == Some(Triple(s[0..x], s[x + 1..y], s[y + 1..|s|]))
  {
    RunsEnd(s, x, y);
    assert MatchAt(s, 0) == Some(Triple(s[0..x], s[x + 1..y], s[y + 1..|s|]));
  }

  lemma RunsEnd(s: string, x: nat, y: nat)
    requires 0 < x && x + 1 < y && y + 1 < |s| && s[x] == '/' && s[y] == '/'
    requires AllDigits(s[0..x]) && AllDigits(s[x + 1..y]) && AllDigits(s[y + 1..|s|])
    ensures RunEnd(s, 0) == x && RunEnd(s, x + 1) == y && RunEnd(s, y + 1) == |s|
  {
    RunEndAt(s, 0, x);
    RunEndAt(s, x + 1, y);
    RunEndAt(s, y + 1, |s|);
  }

  /** A text made of three runs of digits separated by "/" matches as a whole. */
  lemma SplitDate(a: string, b: string, c: string)
    requires a != [] && b != [] && c != [] && AllDigits(a) && AllDigits(b) && AllDigits(c)
    ensures FindDate(a + "/" + b + "/" + c, 0) == Some(Triple(a, b, c))
  {
    var u := a + "/";
    var v := u + b;
    var w := v + "/";
    var s := w + c;
    var x, y := |a|, |v|;
    Halves(w, c);
    Halves(v, "/");
    Halves(u, b);
    Halves(a, "/");
    assert s[0..x] == a && s[x] == '/' by {
      assert s[..|w|][..|v|][..|u|] == u;
    }
    assert s[x + 1..y] == b && s[y] == '/' by {
      assert s[..|w|][..|v|] == v;
    }
    assert s[y + 1..|s|] == c by {
      assert s[y + 1..|s|] == s[|w|..];
    }
    MatchAtRuns(s, x, y);
  }

  /** The two parts of a concatenation, cut back out. */
  lemma Halves<T>(l: seq<T>, r: seq<T>)
    ensures (l + r)[..|l|] == l && (l + r)[|l|..] == r
  {
  }

  lemma ZeroPadTwo(n: nat)
    requires n < 100
    ensures ZeroPad(n, 2) == Two(n)
  {
    ZeroPadValue(n, 2);
    TwoValue(n);
    ValueOfInjective(ZeroPad(n, 2), Two(n));
  }

  lemma ZeroPadFour(n: nat)
    requires n < 10000
    ensures ZeroPad(n, 4) == Four(n)
  {
    ZeroPadValue(n, 4);
    FourValue(n);
    ValueOfInjective(ZeroPad(n, 4), Four(n));
  }

  /** `strconv.ParseInt(x, 10, 16)` of a run of digits, error ignored: the value below 32768,
      and 32767 from there on. */
  lemma ClampedSmall(digits: string)
    requires digits != [] && AllDigits(digits)
    ensures ParseIntClamped(digits, 16) == if ValueOf(digits) < 32768 then ValueOf(digits) else 32767
  {
    assert Pow2(15) == 32768;
  }

  /** `normalizeDate` turns any spelling of a valid day as digits "/" digits "/" digits
      (with or without leading zeros, year up to 9999) into its "01/02/2006" text, which
      `time.Parse` then reads back as that day. */
  lemma NormalizeDateOfDay(d: Date, a: string, b: string, c: string)
    requires Valid(d)
    requires a != [] && b != [] && c != [] && AllDigits(a) && AllDigits(b) && AllDigits(c)
    requires ValueOf(a) == d.month && ValueOf(b) == d.day && ValueOf(c) == d.year
    ensures NormalizeDate(a + "/" + b + "/" + c) == Some(Format(d))
    ensures Parse(Format(d)) == Some(d)
  {
    SplitDate(a, b, c);
    ClampedSmall(a);
    ClampedSmall(b);
    ClampedSmall(c);
    ZeroPadTwo(d.month);
    ZeroPadTwo(d.day);
    ZeroPadFour(d.year);
    ParseFormat(d);
  }

  /** The DCU memo: a check number for "SH DRAFT", the type for "DIVIDEND" and for a
      "WITHDRAW" without description, otherwise the description. */
  function DcuMemo(record: seq<string>): string
    requires |record| >= 4
    requires record[2] == "SH DRAFT" ==> |record| >= 8
  {
    if record[2] == "SH DRAFT" then "Check #" + record[7]
    else if record[2] == "DIVIDEND" then record[2]
    else if record[2] == "WITHDRAW" && |record[3]| == 0 then record[2]
    else record[3]
  }

  /** One record of a DCU export (loop body of `ImportDCU`): fields 1 date, 2 type,
      3 description, 4 and 5 the amount, 7 the check number. */
  function DcuRecord(p: Primitives, source: string, record: seq<string>): (r: Step<Transaction>)
    ensures r != Skip
    ensures r == Crash <==>
              |record| < 4 || (record[2] == "SH DRAFT" && |record| < 8)
              || (Parse(record[1]).Some? && (|record| < 5 || (record[4] == "" && |record| < 6)))
    ensures r == Stop(InvalidCsv) <==> r != Crash && Parse(record[1]).Some? && record[4] == "" && record[5] == ""
    ensures r.Keep? ==> Parse(record[1]) == Some(r.value.date)
    ensures r.Keep? ==> r.value.source == source && r.value.disambiguation == ""
                        && r.value.category == "" && !r.value.ignored
    ensures r.Keep? && record[2] == "SH DRAFT" ==> r.value.memo == "Check #" + record[7]
    ensures r.Keep? && record[2] == "DIVIDEND" ==> r.value.memo == "DIVIDEND"
    ensures r.Keep? && record[2] == "WITHDRAW" && record[3] == "" ==> r.value.memo == "WITHDRAW"
    ensures r.Keep? && record[2] != "SH DRAFT" && record[2] != "DIVIDEND" && record[3] != "" ==> r.value.memo == record[3]
    ensures r.Keep? && record[4] != "" ==> p.parseFloat(record[4]) == Some(r.value.amount)
    ensures r.Keep? && record[4] == "" ==> record[5] != "" && p.parseFloat(record[5]) == Some(r.value.amount)
  {
    if |record| < 4 || (record[2] == "SH DRAFT" && |record| < 8) then Crash
    else
      var memo := DcuMemo(record);
      match Parse(record[1])
      case None => Stop(BadDate(record[1]))
      case Some(date) =>
        if |record| < 5 then Crash
        else if record[4] != "" then
          match p.parseFloat(record[4])
          case None => Stop(BadNumber(record[4]))
          case Some(amount) => Keep(Transaction(source, date, memo, amount, "", "", false))
        else if |record| < 6 then Crash
        else if record[5] != "" then
          match p.parseFloat(record[5])
          case None => Stop(BadNumber(record[5]))
          case Some(amount) => Keep(Transaction(source, date, memo, amount, "", "", false))
        else Stop(InvalidCsv)
  }

  /** One record of an Amazon Rewards export (loop body of `ImportAmazonRewards`): date
      from field 1, memo from field 2, amount from field 5. */
  function AmazonRecord(p: Primitives, source: string, record: seq<string>): (r: Step<Transaction>)
    ensures r != Skip && r != Stop(InvalidCsv)
    ensures r == Crash <==> |record| < 2 || (Parse(record[1]).Some? && |record| < 6)
    ensures r.Keep? <==> |record| >= 6 && Parse(record[1]).Some? && p.parseFloat(record[5]).Some?
    ensures r.Keep? ==> r.value == Transaction(source, Parse(record[1]).value, record[2],
                                               p.parseFloat(record[5]).value, "", "", false)
  {
    if |record| < 2 then Crash
    else
      match Parse(record[1])
      case None => Stop(BadDate(record[1]))
      case Some(date) =>
        if |record| < 6 then Crash
        else
          match p.parseFloat(record[5])
          case None => Stop(BadNumber(record[5]))
          case Some(amount) => Keep(Transaction(source, date, record[2], amount, "", "", false))
  }

  /** One record of an investments export (loop body of `ImportInvestments`): account in
      field 0 (records whose account is not an int64 are passed over), date in field 1,
      type and symbol in 2 and 3, shares in 4 and price in 5, the numbers with "$" and ","
      removed. */
  function InvestmentRecord(p: Primitives, record: seq<string>): (r: Step<Investment>)
    ensures r == Skip <==> |record| >= 1 && ParseInt(record[0], 64).None?
    ensures r != Stop(InvalidCsv)
    ensures r.Keep? ==> |record| >= 6 && ParseInt(record[0], 64) == Some(r.value.account)
    ensures r.Keep? ==> NormalizeDate(record[1]).Some? && Parse(NormalizeDate(record[1]).value) == Some(r.value.date)
    ensures r.Keep? ==> r.value.kind == record[2] && r.value.symbol == record[3] && r.value.disambiguation == ""
    ensures r.Keep? ==> p.parseFloat(Cvt(record[4])) == Some(r.value.shares)
    ensures r.Keep? && record[5] == "" ==> r.value.price == 0.0
    ensures r.Keep? && record[5] != "" ==> p.parseFloat(Cvt(record[5])) == Some(r.value.price)
  {
    if |record| < 1 then Crash
    else
      match ParseInt(record[0], 64)
      case None => Skip
      case Some(account) =>
        if |record| < 2 then Crash
        else
          match NormalizeDate(record[1])
          case None => Crash
          case Some(n) =>
            match Parse(n)
            case None => Stop(BadDate(n))
            case Some(date) =>
              if |record| < 5 then Crash
              else
                match p.parseFloat(Cvt(record[4]))
                case None => Stop(BadNumber(Cvt(record[4])))
                case Some(shares) =>
                  if |record| < 6 then Crash
                  else if |record[5]| == 0 then Keep(Investment(account, date, record[2], record[3], shares, 0.0, ""))
                  else
                    match p.parseFloat(Cvt(record[5]))
                    case None => Stop(BadNumber(Cvt(record[5])))
                    case Some(price) => Keep(Investment(account, date, record[2], record[3], shares, price, ""))
  }

  /** The records after the header row. */
  function Body(records: seq<seq<string>>): seq<seq<string>> {
    if records == [] then [] else records[1..]
  }

  function DcuSteps(p: Primitives, source: string, records: seq<seq<string>>): (steps: seq<Step<Transaction>>)
    ensures |steps| == |Body(records)|
  {
    var rows := Body(records);
    seq(|rows|, k requires 0 <= k < |rows| => DcuRecord(p, source, rows[k]))
  }

  function AmazonSteps(p: Primitives, source: string, records: seq<seq<string>>): (steps: seq<Step<Transaction>>)
    ensures |steps| == |Body(records)|
  {
    var rows := Body(records);
    seq(|rows|, k requires 0 <= k < |rows| => AmazonRecord(p, source, rows[k]))
  }

  function InvestmentSteps(p: Primitives, records: seq<seq<string>>): (steps: seq<Step<Investment>>)
    ensures |steps| == |records|
  {
    seq(|records|, k requires 0 <= k < |records| => InvestmentRecord(p, records[k]))
  }

  /** The header row never matters: the DCU and Amazon imports read only the rows after it. */
  lemma HeaderIgnored(p: Primitives, source: string, h1: seq<string>, h2: seq<string>, rows: seq<seq<string>>)
    ensures DcuSteps(p, source, [h1] + rows) == DcuSteps(p, source, [h2] + rows)
    ensures AmazonSteps(p, source, [h1] + rows) == AmazonSteps(p, source, [h2] + rows)
    ensures DcuSteps(p, source, [h1] + rows) == seq(|rows|, k requires 0 <= k < |rows| => DcuRecord(p, source, rows[k]))
  {
    assert Body([h1] + rows) == rows && Body([h2] + rows) == rows;
  }

  /** All values of a map, one per key, in an arbitrary order (Go's map iteration order is
      unspecified). */
  method ValuesOf<T>(m: map<string, T>) returns (r: seq<T>, ghost keys: seq<string>)
    ensures |r| == |keys| == |m|
    ensures forall i, j :: 0 <= i < j < |keys| ==> keys[i] != keys[j]
    ensures forall i :: 0 <= i < |keys| ==> keys[i] in m && r[i] == m[keys[i]]
    ensures forall id :: id in m ==> id in keys
  {
    var rest := m.Keys;
    r, keys := [], [];
    while rest != {}
      invariant rest <= m.Keys
      invariant forall id :: id in m ==> (id in rest <==> id !in keys)
      invariant |keys| + |rest| == |m|
      invariant |r| == |keys|
      invariant forall i, j :: 0 <= i < j < |keys| ==> keys[i] != keys[j]
      invariant forall i :: 0 <= i < |keys| ==> keys[i] in m && r[i] == m[keys[i]]
      decreases |rest|
    {
      var id :| id in rest;
      r, keys := r + [m[id]], keys + [id];
      rest := rest - {id};
    }
  }

  /** `TransactionImporter`: the transactions and investments collected so far, each keyed by
      its Id. `txId` and `invId` are `tx.Id()` and `investment.Id()`; the constructor sets them
      and the methods hold for whatever key functions they are. */
  class TransactionImporter {
    const prims: Primitives
    const txId: Transaction -> string
    const invId: Investment -> string
    var txs: map<string, Transaction>
    var investments: map<string, Investment>

    /** Every entry is stored under its own Id. */
    ghost predicate Valid()
      reads this
    {
      && (forall id :: id in txs ==> txId(txs[id]) == id)
      && (forall id :: id in investments ==> invId(investments[id]) == id)
    }

    /** `NewTransactionImporter()`. */
    constructor (prims: Primitives)
      ensures Valid() && this.prims == prims && txs == map[] && investments == map[]
      ensures txId == TxKey(prims) && invId == InvKey(prims)
    {
      this.prims := prims;
      txId := TxKey(prims);
      invId := InvKey(prims);
      txs := map[];
      investments := map[];
    }

    /** `Add(tx)`: store `tx` under its Id, first trying the disambiguations "0", "1", ... when
        that Id is taken. The search ends only once some disambiguation gives a free Id, which
        the caller guarantees. `stored` is the transaction as stored, which in Go is the
        caller's own object, rewritten in place. */
    method Add(tx: Transaction) returns (stored: Transaction)
      requires Valid()
      requires txId(tx) in txs ==> exists i: nat :: txId(TxRetry(tx, i)) !in txs
      modifies this
      ensures Valid() && investments == old(investments)
      ensures StoredAs(txId, TxRetry, old(txs).Keys, tx, stored)
      ensures txId(stored) !in old(txs)
      ensures txs == old(txs)[txId(stored) := stored]
    {
      stored := tx;
      if txId(tx) in txs {
        ghost var bound: nat :| txId(TxRetry(tx, bound)) !in txs;
        var i := 0;
        stored := TxRetry(tx, 0);
        while txId(stored) in txs
          invariant i <= bound && stored == TxRetry(tx, i)
          invariant forall j :: 0 <= j < i ==> txId(TxRetry(tx, j)) in txs
          decreases bound - i
        {
          i := i + 1;
          stored := TxRetry(tx, i);
        }
      }
      txs := txs[txId(stored) := stored];
    }

    /** `AddInvestment(investment)`: the same rule, keyed by the investment's Id. */
    method AddInvestment(inv: Investment) returns (stored: Investment)
      requires Valid()
      requires invId(inv) in investments ==> exists i: nat :: invId(InvRetry(inv, i)) !in investments
      modifies this
      ensures Valid() && txs == old(txs)
      ensures StoredAs(invId, InvRetry, old(investments).Keys, inv, stored)
      ensures invId(stored) !in old(investments)
      ensures investments == old(investments)[invId(stored) := stored]
    {
      stored := inv;
      if invId(inv) in investments {
        ghost var bound: nat :| invId(InvRetry(inv, bound)) !in investments;
        var i := 0;
        stored := InvRetry(inv, 0);
        while invId(stored) in investments
          invariant i <= bound && stored == InvRetry(inv, i)
          invariant forall j :: 0 <= j < i ==> invId(InvRetry(inv, j)) in investments
          decreases bound - i
        {
          i := i + 1;
          stored := InvRetry(inv, i);
        }
      }
      investments := investments[invId(stored) := stored];
    }

    /** `All()`: every stored transaction exactly once. */
    method All() returns (r: seq<Transaction>)
      requires Valid()
      ensures |r| == |txs|
      ensures forall tx :: tx in r <==> tx in txs.Values
      ensures forall i, j :: 0 <= i < j < |r| ==> r[i] != r[j]
    {
      ghost var keys;
      r, keys := ValuesOf(txs);
      forall tx | tx in txs.Values
        ensures tx in r
      {
        var id :| id in txs && txs[id] == tx;
        var k :| 0 <= k < |keys| && keys[k] == id;
        assert r[k] == tx;
      }
      forall i, j | 0 <= i < j < |r|
        ensures r[i] != r[j]
      {
        assert txId(r[i]) == keys[i] && txId(r[j]) == keys[j];
      }
    }

    /** `AllInvestments()`: every stored investment exactly once. */
    method AllInvestments() returns (r: seq<Investment>)
      requires Valid()
      ensures |r| == |investments|
      ensures forall inv :: inv in r <==> inv in investments.Values
      ensures forall i, j :: 0 <= i < j < |r| ==> r[i] != r[j]
    {
      ghost var keys;
      r, keys := ValuesOf(investments);
      forall inv | inv in investments.Values
        ensures inv in r
      {
        var id :| id in investments && investments[id] == inv;
        var k :| 0 <= k < |keys| && keys[k] == id;
        assert r[k] == inv;
      }
      forall i, j | 0 <= i < j < |r|
        ensures r[i] != r[j]
      {
        assert invId(r[i]) == keys[i] && invId(r[j]) == keys[j];
      }
    }

    /** After adding a batch: `added` are the entries of `acc` as stored, one after the other,
        starting from the map `before`; nothing that was there is replaced. */
    ghost predicate TxBatch(before: map<string, Transaction>, acc: seq<Transaction>, added: seq<Transaction>)
      reads this
    {
      && |added| == |acc|
      && txs == Stored(before, added, txId)
      && |txs| == |before| + |added|
      && (forall id :: id in before ==> id in txs && txs[id] == before[id])
      && StoredInOrder(txId, TxRetry, before, acc, added)
    }

    ghost predicate InvBatch(before: map<string, Investment>, acc: seq<Investment>, added: seq<Investment>)
      reads this
    {
      && |added| == |acc|
      && investments == Stored(before, added, invId)
      && |investments| == |before| + |added|
      && (forall id :: id in before ==> id in investments && investments[id] == before[id])
      && StoredInOrder(invId, InvRetry, before, acc, added)
    }

    /** A batch loop at record k: the importer is valid, `acc` are the entries kept so far,
        and `added` are those entries as stored on top of `before`. */
    ghost predicate TxLoop(steps: seq<Step<Transaction>>, k: nat, before: map<string, Transaction>,
                           acc: seq<Transaction>, added: seq<Transaction>)
      reads this
    {
      Valid() && Progress(steps, k, acc) && |acc| <= k && TxBatch(before, acc, added)
    }

    ghost predicate InvLoop(steps: seq<Step<Investment>>, k: nat, before: map<string, Investment>,
                            acc: seq<Investment>, added: seq<Investment>)
      reads this
    {
      Valid() && Progress(steps, k, acc) && |acc| <= k && InvBatch(before, acc, added)
    }

    /** One kept record of a batch: `Add` it, which ends because its first n + 1
        disambiguations have different Ids and at most n Ids are taken. */
    method AddKept(steps: seq<Step<Transaction>>, k: nat, ghost before: map<string, Transaction>,
                   ghost acc: seq<Transaction>, ghost added: seq<Transaction>) returns (stored: Transaction)
      requires TxLoop(steps, k, before, acc, added) && k < |steps| && steps[k].Keep?
      requires Separates(txId, TxRetry, steps[k].value, |before| + |steps|)
      modifies this
      ensures investments == old(investments)
      ensures TxLoop(steps, k + 1, before, acc + [steps[k].value], added + [stored])
    {
      var tx := steps[k].value;
      ProgressKeep(steps, k, acc);
      if txId(tx) in txs {
        FreeRetryExists(txId, TxRetry, tx, txs.Keys, |before| + |steps|);
      }
      stored := Add(tx);
      StoredSnoc(before, added, stored, txId);
      assert (acc + [tx])[..|acc|] == acc;
    }

    method AddKeptInvestment(steps: seq<Step<Investment>>, k: nat, ghost before: map<string, Investment>,
                             ghost acc: seq<Investment>, ghost added: seq<Investment>) returns (stored: Investment)
      requires InvLoop(steps, k, before, acc, added) && k < |steps| && steps[k].Keep?
      requires Separates(invId, InvRetry, steps[k].value, |before| + |steps|)
      modifies this
      ensures txs == old(txs)
      ensures InvLoop(steps, k + 1, before, acc + [steps[k].value], added + [stored])
    {
      var inv := steps[k].value;
      ProgressKeep(steps, k, acc);
      if invId(inv) in investments {
        FreeRetryExists(invId, InvRetry, inv, investments.Keys, |before| + |steps|);
      }
      stored := AddInvestment(inv);
      StoredSnoc(before, added, stored, invId);
      assert (acc + [inv])[..|acc|] == acc;
    }

    /** The loop shared by `ImportDCU` and `ImportAmazonRewards`: `Add` each kept record's
        transaction, in order, until a record fails. `added` are the transactions as stored. */
    method AddTransactions(steps: seq<Step<Transaction>>) returns (status: Status, ghost added: seq<Transaction>)
      requires Valid()
      requires forall k :: 0 <= k < |steps| && steps[k].Keep? ==> Separates(txId, TxRetry, steps[k].value, |txs| + |steps|)
      modifies this
      ensures Valid() && investments == old(investments)
      ensures status == StatusOf(steps)
      ensures StoredInOrder(txId, TxRetry, old(txs), Accepted(steps), added)
      ensures txs == Stored(old(txs), added, txId)
      ensures |txs| == |old(txs)| + |added|
      ensures forall id :: id in old(txs) ==> id in txs && txs[id] == old(txs)[id]
    {
      ghost var before := txs;
      ghost var acc: seq<Transaction> := [];
      added := [];
      var k := 0;
      assert steps[0..] == steps;
      while k < |steps|
        invariant TxLoop(steps, k, before, acc, added) && investments == old(investments)
      {
        match steps[k] {
          case Keep(tx) =>
            var stored := AddKept(steps, k, before, acc, added);
            acc, added := acc + [tx], added + [stored];
          case Skip =>
            ProgressSkip(steps, k, acc);
          case Stop(e) =>
            ProgressStop(steps, k, acc);
            return Failed(e), added;
          case Crash =>
            ProgressStop(steps, k, acc);
            return Crashed, added;
        }
        k := k + 1;
      }
      ProgressDone(steps, acc);
      status := Done;
    }

    /** The loop of `ImportInvestments`, adding with `AddInvestment`. */
    method AddInvestments(steps: seq<Step<Investment>>) returns (status: Status, ghost added: seq<Investment>)
      requires Valid()
      requires forall k :: 0 <= k < |steps| && steps[k].Keep? ==> Separates(invId, InvRetry, steps[k].value, |investments| + |steps|)
      modifies this
      ensures Valid() && txs == old(txs)
      ensures status == StatusOf(steps)
      ensures StoredInOrder(invId, InvRetry, old(investments), Accepted(steps), added)
      ensures investments == Stored(old(investments), added, invId)
      ensures |investments| == |old(investments)| + |added|
      ensures forall id :: id in old(investments) ==> id in investments && investments[id] == old(investments)[id]
    {
      ghost var before := investments;
      ghost var acc: seq<Investment> := [];
      added := [];
      var k := 0;
      assert steps[0..] == steps;
      while k < |steps|
        invariant InvLoop(steps, k, before, acc, added) && txs == old(txs)
      {
        match steps[k] {
          case Keep(inv) =>
            var stored := AddKeptInvestment(steps, k, before, acc, added);
            acc, added := acc + [inv], added + [stored];
          case Skip =>
            ProgressSkip(steps, k, acc);
          case Stop(e) =>
            ProgressStop(steps, k, acc);
            return Failed(e), added;
          case Crash =>
            ProgressStop(steps, k, acc);
            return Crashed, added;
        }
        k := k + 1;
      }
      ProgressDone(steps, acc);
      status := Done;
    }

    /** `ImportDCU(source, contents)`, over the records of the export. */
    method ImportDCU(source: string, records: seq<seq<string>>) returns (status: Status, ghost added: seq<Transaction>)
      requires Valid()
      requires forall r :: r in Body(records) && DcuRecord(prims, source, r).Keep? ==>
                 Separates(txId, TxRetry, DcuRecord(prims, source, r).value, |txs| + |Body(records)|)
      modifies this
      ensures Valid() && investments == old(investments)
      ensures status == StatusOf(DcuSteps(prims, source, records))
      ensures StoredInOrder(txId, TxRetry, old(txs), Accepted(DcuSteps(prims, source, records)), added)
      ensures txs == Stored(old(txs), added, txId)
      ensures |txs| == |old(txs)| + |added|
    {
      var steps := DcuSteps(prims, source, records);
      assert forall k :: 0 <= k < |steps| ==> Body(records)[k] in Body(records);
      status, added := AddTransactions(steps);
    }

    /** `ImportAmazonRewards(source, contents)`, over the records of the export. */
    method ImportAmazonRewards(source: string, records: seq<seq<string>>) returns (status: Status, ghost added: seq<Transaction>)
      requires Valid()
      requires forall r :: r in Body(records) && AmazonRecord(prims, source, r).Keep? ==>
                 Separates(txId, TxRetry, AmazonRecord(prims, source, r).value, |txs| + |Body(records)|)
      modifies this
      ensures Valid() && investments == old(investments)
      ensures status == StatusOf(AmazonSteps(prims, source, records))
      ensures StoredInOrder(txId, TxRetry, old(txs), Accepted(AmazonSteps(prims, source, records)), added)
      ensures txs == Stored(old(txs), added, txId)
      ensures |txs| == |old(txs)| + |added|
    {
      var steps := AmazonSteps(prims, source, records);
      assert forall k :: 0 <= k < |steps| ==> Body(records)[k] in Body(records);
      status, added := AddTransactions(steps);
    }

    /** `ImportInvestments(contents)`, over the records of the export. No header row is
        skipped: a row whose first field is not an integer is passed over instead. */
    method ImportInvestments(records: seq<seq<string>>) returns (status: Status, ghost added: seq<Investment>)
      requires Valid()
      requires forall r :: r in records && InvestmentRecord(prims, r).Keep? ==>
                 Separates(invId, InvRetry, InvestmentRecord(prims, r).value, |investments| + |records|)
      modifies this
      ensures Valid() && txs == old(txs)
      ensures status == StatusOf(InvestmentSteps(prims, records))
      ensures StoredInOrder(invId, InvRetry, old(investments), Accepted(InvestmentSteps(prims, records)), added)
      ensures investments == Stored(old(investments), added, invId)
      ensures |investments| == |old(investments)| + |added|
    {
      var steps := InvestmentSteps(prims, records);
      assert forall k :: 0 <= k < |steps| ==> records[k] in records;
      status, added := AddInvestments(steps);
    }
  }
}
