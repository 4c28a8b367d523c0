/**
  The dashboard's derived figures: today's money in, money out and net,
  the most recent page of transactions, and the sign shown beside each
  amount. Amounts are whole cents.
*/
module Dashboard {
  import Text
  import Seqs

  datatype Transaction = Transaction(
    id: int,
    merchant: string,
    category: string,
    amount: int,
    location: string,
    date: string)

  /** Today's figures: net total, the sum of inflows and the sum of outflows. */
  datatype Summary = Summary(total: int, incoming: int, outgoing: int)

  /** How many transactions the activity table shows. */
  const PageSize: nat := 20

  /** The calendar-day key of an ISO timestamp: its first ten characters (`slice(0, 10)`). */
  function DayKey(iso: string): (day: string)
    ensures day <= iso
    ensures |day| == if |iso| < 10 then |iso| else 10
  {
    if |iso| < 10 then iso else iso[..10]
  }

  /** The transactions `keep` accepts, in list order: JavaScript's `filter`. */
  function Select(txs: seq<Transaction>, keep: Transaction -> bool): (r: seq<Transaction>)
    ensures |r| <= |txs|
  {
    if |txs| == 0 then []
    else if keep(txs[0]) then [txs[0]] + Select(txs[1..], keep)
    else Select(txs[1..], keep)
  }

  /**
    `Select` keeps a transaction iff `keep` accepts it, keeps every occurrence
    of it, and keeps the list order.
  */
  lemma {:induction false} SelectKeeps(txs: seq<Transaction>, keep: Transaction -> bool)
    ensures forall t :: t in Select(txs, keep) <==> t in txs && keep(t)
    ensures forall t :: multiset(Select(txs, keep))[t] == if keep(t) then multiset(txs)[t] else 0
    ensures Seqs.IsSubsequence(Select(txs, keep), txs)
    decreases |txs|
  {
    if |txs| > 0 {
      assert txs == [txs[0]] + txs[1..];
      SelectKeeps(txs[1..], keep);
    }
  }

  /** The test `t.date.startsWith(today)`. */
  function DatedOn(today: string): Transaction -> bool {
    (t: Transaction) => Text.StartsWith(t.date, today)
  }

  /** The test `t.amount > 0`. */
  function IsInflow(t: Transaction): bool {
    t.amount > 0
  }

  /** The test `t.amount < 0`. */
  function IsOutflow(t: Transaction): bool {
    t.amount < 0
  }

  /** The transactions whose date starts with `today`, in list order. */
  function TodaysTransactions(txs: seq<Transaction>, today: string): (r: seq<Transaction>)
    ensures forall t :: t in r <==> t in txs && Text.StartsWith(t.date, today)
    ensures forall t :: multiset(r)[t] == if Text.StartsWith(t.date, today) then multiset(txs)[t] else 0
    ensures Seqs.IsSubsequence(r, txs)
  {
    SelectKeeps(txs, DatedOn(today));
    Select(txs, DatedOn(today))
  }

  /** The sum of the amounts, as `reduce((acc, t) => acc + t.amount, 0)`. */
  function Sum(txs: seq<Transaction>): int {
    if |txs| == 0 then 0 else Sum(txs[..|txs| - 1]) + txs[|txs| - 1].amount
  }

  /** Summing from the front: the head's amount plus the sum of the rest. */
  lemma {:induction false} SumCons(h: Transaction, rest: seq<Transaction>)
    ensures Sum([h] + rest) == h.amount + Sum(rest)
    decreases |rest|
  {
    var s := [h] + rest;
    if |rest| > 0 {
      assert s[..|s| - 1] == [h] + rest[..|rest| - 1];
      SumCons(h, rest[..|rest| - 1]);
    } else {
      assert s[..|s| - 1] == [];
    }
  }

  /** A list without a negative amount sums to zero or more. */
  lemma {:induction false} SumNonNegative(xs: seq<Transaction>)
    requires forall i :: 0 <= i < |xs| ==> xs[i].amount >= 0
    ensures Sum(xs) >= 0
    decreases |xs|
  {
    if |xs| > 0 {
      SumNonNegative(xs[..|xs| - 1]);
    }
  }

  /** A list without a positive amount sums to zero or less. */
  lemma {:induction false} SumNonPositive(xs: seq<Transaction>)
    requires forall i :: 0 <= i < |xs| ==> xs[i].amount <= 0
    ensures Sum(xs) <= 0
    decreases |xs|
  {
    if |xs| > 0 {
      SumNonPositive(xs[..|xs| - 1]);
    }
  }

  /** The transactions with a strictly positive amount, in list order. */
  function Inflows(txs: seq<Transaction>): (r: seq<Transaction>)
    ensures forall t :: t in r <==> t in txs && t.amount > 0
    ensures forall t :: multiset(r)[t] == if t.amount > 0 then multiset(txs)[t] else 0
    ensures Seqs.IsSubsequence(r, txs)
    ensures Sum(r) >= 0
  {
    var r := Select(txs, IsInflow);
    SelectKeeps(txs, IsInflow);
    assert forall i :: 0 <= i < |r| ==> r[i] in r;
    SumNonNegative(r);
    r
  }

  /** The transactions with a strictly negative amount, in list order. */
  function Outflows(txs: seq<Transaction>): (r: seq<Transaction>)
    ensures forall t :: t in r <==> t in txs && t.amount < 0
    ensures forall t :: multiset(r)[t] == if t.amount < 0 then multiset(txs)[t] else 0
    ensures Seqs.IsSubsequence(r, txs)
    ensures Sum(r) <= 0
  {
    var r := Select(txs, IsOutflow);
    SelectKeeps(txs, IsOutflow);
    assert forall i :: 0 <= i < |r| ==> r[i] in r;
    SumNonPositive(r);
    r
  }

  /**
    The figures of a list of transactions: inflows are never negative,
    outflows never positive, and the net is exactly their sum because zero
    amounts count on neither side.
  */
  function Figures(todays: seq<Transaction>): (s: Summary)
    ensures s.incoming >= 0 && s.outgoing <= 0
    ensures s.total == s.incoming + s.outgoing
  {
    SumSplitsBySign(todays);
    Summary(Sum(todays), Sum(Inflows(todays)), Sum(Outflows(todays)))
  }

  /** Today's summary: the figures of the transactions dated today. */
  function TodaySummary(txs: seq<Transaction>, today: string): (s: Summary)
    ensures s.incoming >= 0 && s.outgoing <= 0
    ensures s.total == s.incoming + s.outgoing
    ensures (forall t :: t in txs ==> !Text.StartsWith(t.date, today)) ==> s == Summary(0, 0, 0)
  {
    var todays := TodaysTransactions(txs, today);
    assert (forall t :: t in txs ==> !Text.StartsWith(t.date, today)) ==> |todays| == 0 by {
      if |todays| > 0 {
        assert todays[0] in todays;
      }
    }
    Figures(todays)
  }

  /** The first `PageSize` transactions, or all of them when there are fewer. */
  function Latest(txs: seq<Transaction>): (r: seq<Transaction>)
    ensures r <= txs
    ensures |r| == if |txs| < PageSize then |txs| else PageSize
  {
    if |txs| < PageSize then txs else txs[..PageSize]
  }

  /** A displayed amount: a sign ("+" or "-") and a magnitude in cents. */
  datatype Signed = Signed(sign: string, magnitude: nat)

  /** The value a display denotes. */
  function Denotes(d: Signed): int {
    var m: int := d.magnitude;
    if d.sign == "-" then -m else m
  }

  /** A table row's amount: "-" for a negative amount, "+" otherwise, then the magnitude. */
  function RowAmount(amount: int): (d: Signed)
    ensures d.sign == "-" || d.sign == "+"
    ensures d.sign == "-" <==> amount < 0
    ensures Denotes(d) == amount
  {
    if amount < 0 then Signed("-", -amount) else Signed("+", amount)
  }

  /** The net line: "+" when the total is zero or more, "-" otherwise, then the magnitude. */
  function NetAmount(total: int): (d: Signed)
    ensures d.sign == "-" || d.sign == "+"
    ensures d.sign == "+" <==> total >= 0
    ensures Denotes(d) == total
  {
    if total >= 0 then Signed("+", total) else Signed("-", -total)
  }

  // ---------- Lemmas ----------

  /** The net of a list is the sum of its inflows plus the sum of its outflows. */
  lemma {:induction false} SumSplitsBySign(txs: seq<Transaction>)
    ensures Sum(txs) == Sum(Inflows(txs)) + Sum(Outflows(txs))
    decreases |txs|
  {
    if |txs| > 0 {
      var h := txs[0];
      var rest := txs[1..];
      assert txs == [h] + rest;
      SumCons(h, rest);
      SumSplitsBySign(rest);
      if h.amount > 0 {
        assert Inflows(txs) == [h] + Inflows(rest);
        SumCons(h, Inflows(rest));
      } else if h.amount < 0 {
        assert Outflows(txs) == [h] + Outflows(rest);
        SumCons(h, Outflows(rest));
      }
    }
  }

  /** Selecting distributes over concatenation. */
  lemma {:induction false} SelectAppend(a: seq<Transaction>, b: seq<Transaction>, keep: Transaction -> bool)
    ensures Select(a + b, keep) == Select(a, keep) + Select(b, keep)
    decreases |a|
  {
    if |a| == 0 {
      assert a + b == b;
    } else {
      assert (a + b)[1..] == a[1..] + b;
      SelectAppend(a[1..], b, keep);
    }
  }

  /** One more transaction is selected at the end iff `keep` accepts it. */
  lemma {:induction false} SelectSnoc(a: seq<Transaction>, t: Transaction, keep: Transaction -> bool)
    ensures Select(a + [t], keep) == if keep(t) then Select(a, keep) + [t] else Select(a, keep)
  {
    SelectAppend(a, [t], keep);
    assert [t][1..] == [];
    if !keep(t) {
      assert Select(a, keep) + [] == Select(a, keep);
    }
  }

  /**
    One more transaction moves today's summary by exactly its amount when it
    is dated today (into inflows when positive, outflows when negative), and
    leaves the summary alone otherwise.
  */
  lemma {:induction false} TodaySummaryAppend(txs: seq<Transaction>, t: Transaction, today: string)
    ensures var s := TodaySummary(txs, today);
      TodaySummary(txs + [t], today) ==
        if Text.StartsWith(t.date, today) then
          Summary(s.total + t.amount,
                  s.incoming + (if t.amount > 0 then t.amount else 0),
                  s.outgoing + (if t.amount < 0 then t.amount else 0))
        else s
  {
    if Text.StartsWith(t.date, today) {
      var a := TodaysTransactions(txs, today);
      var s := TodaySummary(txs, today);
      var s' := TodaySummary(txs + [t], today);
      KeptSummary(txs, t, today);
      FiguresAppend(a, t);
      assert s'.total == s.total + t.amount;
      assert s'.incoming == s.incoming + (if t.amount > 0 then t.amount else 0);
      assert s'.outgoing == s.outgoing + (if t.amount < 0 then t.amount else 0);
    } else {
      SelectSnoc(txs, t, DatedOn(today));
    }
  }

  /** A transaction dated today joins the list the summary is taken over. */
  lemma {:induction false} KeptSummary(txs: seq<Transaction>, t: Transaction, today: string)
    requires Text.StartsWith(t.date, today)
    ensures TodaySummary(txs, today) == Figures(TodaysTransactions(txs, today))
    ensures TodaySummary(txs + [t], today) == Figures(TodaysTransactions(txs, today) + [t])
  {
    SelectSnoc(txs, t, DatedOn(today));
  }

  /** The figures of a list with one more transaction. */
  lemma {:induction false} FiguresAppend(a: seq<Transaction>, t: Transaction)
    ensures var s := Figures(a);
      Figures(a + [t]) ==
        Summary(s.total + t.amount,
                s.incoming + (if t.amount > 0 then t.amount else 0),
                s.outgoing + (if t.amount < 0 then t.amount else 0))
  {
    var s := Figures(a);
    var s' := Figures(a + [t]);
    SumSnoc(a, t);
    SelectSnoc(a, t, IsInflow);
    SelectSnoc(a, t, IsOutflow);
    if t.amount > 0 {
      SumSnoc(Inflows(a), t);
    } else if t.amount < 0 {
      SumSnoc(Outflows(a), t);
    }
    assert s'.total == s.total + t.amount;
    assert s'.incoming == s.incoming + (if t.amount > 0 then t.amount else 0);
    assert s'.outgoing == s.outgoing + (if t.amount < 0 then t.amount else 0);
  }

  /** Summing a list with one more transaction adds its amount. */
  lemma SumSnoc(a: seq<Transaction>, t: Transaction)
    ensures Sum(a + [t]) == Sum(a) + t.amount
  {
    assert (a + [t])[..|a|] == a;
  }

  /** An empty transaction list gives an all-zero summary. */
  lemma EmptySummary(today: string)
    ensures TodaySummary([], today) == Summary(0, 0, 0)
  {
  }

  /** The row display and the net display agree on every amount. */
  lemma RowAndNetAgree(amount: int)
    ensures RowAmount(amount) == NetAmount(amount)
  {
  }

  /** A list of at most one page is shown in full. */
  lemma ShortListShownWhole(txs: seq<Transaction>)
    requires |txs| <= PageSize
    ensures Latest(txs) == txs
  {
  }

  /** Today's transactions for the key of a timestamp include a transaction stamped with it. */
  lemma StampedTodayCounts(txs: seq<Transaction>, t: Transaction)
    requires t in txs
    ensures t in TodaysTransactions(txs, DayKey(t.date))
  {
    var d := DayKey(t.date);
    assert t.date[..|d|] == d;
  }
}
